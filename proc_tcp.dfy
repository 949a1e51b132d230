/**
 * `RealDriver`: the owner of a connection according to the kernel's TCP
 * table, `/proc/net/tcp`. The table is given as its lines (or `None` when the
 * file cannot be opened) and `pwd.getpwuid` as a partial map from uid to name.
 *
 * The kernel writes an address as the hexadecimal form of the 32-bit word it
 * holds in memory; on the little-endian hosts this driver was written for,
 * `socket.htonl` reverses its four bytes, which gives back the value of the
 * dotted quad read most significant byte first.
 */
module ProcTcp {
  import opened Wrappers
  import opened Text
  import opened Ident

  const B1: int := 0x100
  const B2: int := 0x1_0000
  const B3: int := 0x100_0000
  const Word: int := 0x1_0000_0000

  predicate IsOctet(x: int) {
    0 <= x < 256
  }

  /** `(a<<24)+(b<<16)+(c<<8)+d` on Python's unbounded integers. */
  function Pack(a: int, b: int, c: int, d: int): int {
    a * B3 + b * B2 + c * B1 + d
  }

  /** Four octets pack into one 32-bit word, and each can be read back out of it. */
  lemma Unpack(a: int, b: int, c: int, d: int)
    requires IsOctet(a) && IsOctet(b) && IsOctet(c) && IsOctet(d)
    ensures 0 <= Pack(a, b, c, d) < Word
    ensures Pack(a, b, c, d) % 256 == d
    ensures Pack(a, b, c, d) / B1 % 256 == c
    ensures Pack(a, b, c, d) / B2 % 256 == b
    ensures Pack(a, b, c, d) / B3 == a
  {
    var x := Pack(a, b, c, d);
    assert x == (a * B2 + b * B1 + c) * 256 + d;
    assert x / B1 == a * B2 + b * B1 + c;
    assert x / B1 == (a * B1 + b) * 256 + c;
    assert x / B2 == (x / B1) / 256;
    assert x / B2 == a * B1 + b;
    assert x / B3 == (x / B2) / 256;
  }

  /** Every 32-bit word is the packing of its four bytes. */
  lemma Bytes(x: int)
    requires 0 <= x < Word
    ensures IsOctet(x / B3) && IsOctet(x / B2 % 256) && IsOctet(x / B1 % 256) && IsOctet(x % 256)
    ensures x == Pack(x / B3, x / B2 % 256, x / B1 % 256, x % 256)
  {
    assert x == (x / B1) * 256 + x % 256;
    assert x / B1 == (x / B2) * 256 + x / B1 % 256 by {
      assert x / B2 == (x / B1) / 256;
    }
    assert x / B2 == (x / B3) * 256 + x / B2 % 256 by {
      assert x / B3 == (x / B2) / 256;
    }
  }

  /** The 32-bit byte reversal `htonl` performs on a little-endian host. */
  function Swap32(x: int): (r: int)
    requires 0 <= x < Word
    ensures 0 <= r < Word
  {
    Unpack(x % 256, x / B1 % 256, x / B2 % 256, x / B3);
    Pack(x % 256, x / B1 % 256, x / B2 % 256, x / B3)
  }

  /** Reversing the bytes of a packed word packs them in the opposite order. */
  lemma SwapPack(a: int, b: int, c: int, d: int)
    requires IsOctet(a) && IsOctet(b) && IsOctet(c) && IsOctet(d)
    ensures Swap32(Pack(a, b, c, d)) == Pack(d, c, b, a)
  {
    Unpack(a, b, c, d);
  }

  /** `htonl(htonl(x)) == x`: the conversion is its own inverse. */
  lemma SwapTwice(x: int)
    requires 0 <= x < Word
    ensures Swap32(Swap32(x)) == x
  {
    Bytes(x);
    SwapPack(x / B3, x / B2 % 256, x / B1 % 256, x % 256);
    SwapPack(x % 256, x / B1 % 256, x / B2 % 256, x / B3);
  }

  /** `socket.htonl(x)`; `None` is the OverflowError it raises for a value beyond 32 bits. */
  function Htonl(x: int): (r: Option<int>)
    ensures r.Some? <==> 0 <= x < Word
    ensures r.Some? ==> 0 <= r.value < Word && Swap32(r.value) == x
  {
    if 0 <= x < Word then
      SwapTwice(x);
      Some(Swap32(x))
    else None
  }

  /** `[long(i) for i in parts]`; `None` when some part is not a number. */
  function ParseNumbers(parts: seq<string>): (r: Option<seq<int>>)
    ensures r.Some? ==> |r.value| == |parts|
    decreases |parts|
  {
    if parts == [] then Some([])
    else
      match ParseInt(parts[0])
      case None => None
      case Some(x) =>
        match ParseNumbers(parts[1..])
        case None => None
        case Some(xs) => Some([x] + xs)
  }

  /** A part that is not a number makes the whole conversion raise. */
  lemma {:induction false} ParseNumbersFails(parts: seq<string>, i: nat)
    requires i < |parts| && ParseInt(parts[i]).None?
    ensures ParseNumbers(parts).None?
    decreases i
  {
    if i > 0 && ParseInt(parts[0]).Some? {
      assert parts[1..][i - 1] == parts[i];
      ParseNumbersFails(parts[1..], i - 1);
    }
  }

  /**
   * The packed value of a dotted-quad address text, as `RealDriver.lookup`
   * computes it; `None` is the exception it raises for a text that is not
   * at least four dot-separated numbers.
   */
  function PackAddress(ip: string): Option<int> {
    PackNumbers(ParseNumbers(Split(ip, '.')))
  }

  /** `(li[0]<<24)+(li[1]<<16)+(li[2]<<8)+li[3]`, which raises an IndexError below four numbers. */
  function PackNumbers(li: Option<seq<int>>): Option<int> {
    match li
    case None => None
    case Some(li) => if |li| < 4 then None else Some(Pack(li[0], li[1], li[2], li[3]))
  }

  /** A dotted quad splits into its four numbers. */
  lemma SplitQuad(ta: string, tb: string, tc: string, td: string)
    requires '.' !in ta && '.' !in tb && '.' !in tc && '.' !in td
    ensures Split(ta + "." + tb + "." + tc + "." + td, '.') == [ta, tb, tc, td]
  {
    assert ta + "." + tb + "." + tc + "." + td == ta + ['.'] + (tb + ['.'] + (tc + ['.'] + td));
    SplitAfter(ta, '.', tb + ['.'] + (tc + ['.'] + td));
    SplitAfter(tb, '.', tc + ['.'] + td);
    SplitAfter(tc, '.', td);
    SplitWithout(td, '.');
  }

  /** `long()` reads the decimal text of a natural number back. */
  lemma ParseNatText(n: nat)
    ensures ParseInt(NatText(n)) == Some(n)
  {
    ParseIntText(n);
  }

  /** Each part read is the number at the same place. */
  lemma {:induction false} ParseNumbersOf(parts: seq<string>, xs: seq<int>)
    requires |parts| == |xs|
    requires forall i {:trigger ParseInt(parts[i])} :: 0 <= i < |parts| ==> ParseInt(parts[i]) == Some(xs[i])
    ensures ParseNumbers(parts) == Some(xs)
    decreases |parts|
  {
    if parts != [] {
      ParseNumbersOf(parts[1..], xs[1..]);
      assert [xs[0]] + xs[1..] == xs;
    }
  }

  /** Four numbers read part by part. */
  lemma ParseFour(ta: string, tb: string, tc: string, td: string, a: int, b: int, c: int, d: int)
    requires ParseInt(ta) == Some(a) && ParseInt(tb) == Some(b) && ParseInt(tc) == Some(c) && ParseInt(td) == Some(d)
    ensures ParseNumbers([ta, tb, tc, td]) == Some([a, b, c, d])
  {
    var p, v := [ta, tb, tc, td], [a, b, c, d];
    forall i | 0 <= i < 4
      ensures ParseInt(p[i]) == Some(v[i])
    {
      if i == 0 {
      } else if i == 1 {
      } else if i == 2 {
      } else {
      }
    }
    ParseNumbersOf(p, v);
  }

  /** The address text the socket layer reports packs to its 32-bit value. */
  lemma PackQuadText(a: nat, b: nat, c: nat, d: nat)
    ensures PackAddress(QuadText(a, b, c, d)) == Some(Pack(a, b, c, d))
  {
    var ta, tb, tc, td := NatText(a), NatText(b), NatText(c), NatText(d);
    assert '.' !in ta && '.' !in tb && '.' !in tc && '.' !in td by {
      assert !IsDigit('.');
    }
    SplitQuad(ta, tb, tc, td);
    ParseNatText(a);
    ParseNatText(b);
    ParseNatText(c);
    ParseNatText(d);
    ParseFour(ta, tb, tc, td, a, b, c, d);
    assert PackAddress(QuadText(a, b, c, d)) == PackNumbers(ParseNumbers([ta, tb, tc, td]));
  }

  /** `addr, port = field.split(":")` decoded as `htonl(long(addr, 16))` and `int(port, 16)`. */
  function ParseEndpoint(field: string): Option<(int, int)> {
    var parts := Split(field, ':');
    if |parts| != 2 then None
    else
      match ParseHex(parts[0])
      case None => None
      case Some(h) =>
        match Htonl(h)
        case None => None
        case Some(addr) =>
          match ParseHex(parts[1])
          case None => None
          case Some(port) => Some((addr, port))
  }

  /**
   * An endpoint in the kernel's notation (`%08X:%04X` of the address word as
   * stored on a little-endian host and of the port) decodes to the packed
   * dotted-quad value and the port.
   */
  lemma KernelEndpoint(a: int, b: int, c: int, d: int, port: nat)
    requires IsOctet(a) && IsOctet(b) && IsOctet(c) && IsOctet(d) && port < 0x1_0000
    ensures Pack(d, c, b, a) < Pow16(8) && port < Pow16(4)
    ensures ParseEndpoint(HexText(Pack(d, c, b, a), 8) + ":" + HexText(port, 4)) == Some((Pack(a, b, c, d), port))
  {
    Unpack(d, c, b, a);
    HexWidths();
    HexEndpoint(Pack(d, c, b, a), port);
    SwapPack(d, c, b, a);
  }

  /** A word and a port written as `%08X:%04X` decode to the word's byte swap and the port. */
  lemma HexEndpoint(x: nat, port: nat)
    requires x < Word && port < 0x1_0000
    ensures x < Pow16(8) && port < Pow16(4)
    ensures ParseEndpoint(HexText(x, 8) + ":" + HexText(port, 4)) == Some((Swap32(x), port))
  {
    HexWidths();
    var h, p := HexText(x, 8), HexText(port, 4);
    assert !IsHexDigit(':');
    SplitPair(h, ':', p);
    assert h + ":" + p == h + [':'] + p;
  }

  /** The widths of the kernel's hexadecimal fields: eight digits hold a word, four a port. */
  lemma HexWidths()
    ensures Pow16(8) == Word && Pow16(4) == 0x1_0000
  {
  }

  /** An endpoint as the kernel writes it into the table: `%08X:%04X`. */
  function KernelText(a: int, b: int, c: int, d: int, port: nat): string
    requires IsOctet(a) && IsOctet(b) && IsOctet(c) && IsOctet(d) && port < 0x1_0000
  {
    Unpack(d, c, b, a);
    HexWidths();
    HexText(Pack(d, c, b, a), 8) + ":" + HexText(port, 4)
  }

  /** The kernel's text of an endpoint is one word, and decodes to the packed address and the port. */
  lemma KernelTextWord(a: int, b: int, c: int, d: int, port: nat)
    requires IsOctet(a) && IsOctet(b) && IsOctet(c) && IsOctet(d) && port < 0x1_0000
    ensures var s := KernelText(a, b, c, d, port);
      s != [] && (forall k :: 0 <= k < |s| ==> !IsSpace(s[k]))
      && ParseEndpoint(s) == Some((Pack(a, b, c, d), port))
  {
    KernelEndpoint(a, b, c, d, port);
    HexPairWord(HexText(Pack(d, c, b, a), 8), HexText(port, 4));
  }

  /** Two runs of hexadecimal digits joined by a colon hold no whitespace. */
  lemma HexPairWord(h: string, p: string)
    requires AllHex(h) && AllHex(p)
    ensures var s := h + ":" + p; forall k :: 0 <= k < |s| ==> !IsSpace(s[k])
  {
    var s := h + ":" + p;
    forall k | 0 <= k < |s|
      ensures !IsSpace(s[k])
    {
      if k < |h| {
        assert s[k] == h[k];
      } else if k > |h| {
        assert s[k] == p[k - |h| - 1];
      }
    }
  }

  /** The four values a row is compared with: `(localip, localport, remoteip, remoteport)`. */
  datatype Endpoints = Endpoints(localIp: int, localPort: int, remoteIp: int, remotePort: int)

  /** What one row of the table does to the search. */
  datatype Verdict =
    | Skip            // too short, or another connection
    | Fails           // a field the driver cannot decode: the exception escapes
    | Owner(uid: int) // the connection asked about, owned by `uid`

  /** The verdict on one line of the table (after the header). */
  function Examine(line: string, want: Endpoints): Verdict {
    var sp := Fields(line);
    if |sp| < 8 then Skip
    else
      match ParseEndpoint(sp[1])
      case None => Fails
      case Some(l) =>
        match ParseEndpoint(sp[2])
        case None => Fails
        case Some(r) =>
          if Endpoints(l.0, l.1, r.0, r.1) != want then Skip
          else
            match ParseInt(sp[7])
            case None => Fails
            case Some(uid) => Owner(uid)
  }

  /** Every word of a row holds something and no whitespace. */
  predicate Words(sp: seq<string>) {
    forall i :: 0 <= i < |sp| ==> sp[i] != [] && forall k :: 0 <= k < |sp[i]| ==> !IsSpace(sp[i][k])
  }

  /**
   * A row of fewer than eight words, however its columns are padded, is
   * passed over; so is a blank line.
   */
  lemma ShortRow(gaps: seq<string>, sp: seq<string>, want: Endpoints)
    requires |gaps| == |sp| + 1 && forall i :: 0 <= i < |gaps| ==> Blank(gaps[i])
    requires forall i :: 1 <= i < |sp| ==> gaps[i] != []
    requires |sp| < 8 && Words(sp)
    ensures Examine(Layout(gaps, sp), want) == Skip
    ensures Examine(gaps[0], want) == Skip
  {
    FieldsLayout(gaps, sp);
    FieldsBlank(gaps[0]);
  }

  /**
   * A row whose second and third fields are endpoints as the kernel writes
   * them and whose eighth is a uid, however the columns are padded, gives
   * that owner when it names the connection asked about, and is passed over
   * otherwise.
   */
  lemma KernelRow(line: string, sp: seq<string>, want: Endpoints,
                  a: int, b: int, c: int, d: int, lport: nat, e: int, f: int, g: int, h: int, rport: nat, uid: nat)
    requires Fields(line) == sp && |sp| >= 8
    requires IsOctet(a) && IsOctet(b) && IsOctet(c) && IsOctet(d) && lport < 0x1_0000
    requires IsOctet(e) && IsOctet(f) && IsOctet(g) && IsOctet(h) && rport < 0x1_0000
    requires sp[1] == KernelText(a, b, c, d, lport) && sp[2] == KernelText(e, f, g, h, rport)
    requires sp[7] == NatText(uid)
    ensures want == Endpoints(Pack(a, b, c, d), lport, Pack(e, f, g, h), rport) ==> Examine(line, want) == Owner(uid)
    ensures want != Endpoints(Pack(a, b, c, d), lport, Pack(e, f, g, h), rport) ==> Examine(line, want) == Skip
  {
    KernelTextWord(a, b, c, d, lport);
    KernelTextWord(e, f, g, h, rport);
    ParseNatText(uid);
    DecodedRow(line, sp, want, (Pack(a, b, c, d), lport), (Pack(e, f, g, h), rport), uid);
  }

  /** A row whose words decode is judged by the connection they name alone. */
  lemma DecodedRow(line: string, sp: seq<string>, want: Endpoints, l: (int, int), r: (int, int), uid: int)
    requires Fields(line) == sp && |sp| >= 8
    requires ParseEndpoint(sp[1]) == Some(l) && ParseEndpoint(sp[2]) == Some(r) && ParseInt(sp[7]) == Some(uid)
    ensures Examine(line, want) == if Endpoints(l.0, l.1, r.0, r.1) == want then Owner(uid) else Skip
  {
  }

  /** `pwd.getpwuid(uid)[0]`, or `ERROR:NO-USER` when the uid has no entry. */
  function UserName(passwd: map<int, string>, uid: int): (r: string)
    ensures uid in passwd ==> r == passwd[uid]
    ensures uid !in passwd ==> r == "ERROR:NO-USER"
  {
    if uid in passwd then passwd[uid] else "ERROR:NO-USER"
  }

  /** The search over the rows, first decisive row first. */
  function Scan(rows: seq<string>, want: Endpoints, passwd: map<int, string>): Answer
    decreases |rows|
  {
    if rows == [] then NoOpinion
    else
      match Examine(rows[0], want)
      case Skip => Scan(rows[1..], want, passwd)
      case Fails => Raised
      case Owner(uid) => Says(UserName(passwd, uid))
  }

  /** The rows of the table: `f.readline()` has consumed the header line. */
  function Rows(lines: seq<string>): seq<string> {
    if lines == [] then [] else lines[1..]
  }

  /** `RealDriver().lookup(localport, localip, remoteport, remoteip)` */
  function RealLookup(table: Option<seq<string>>, passwd: map<int, string>, key: ConnKey): Answer {
    if table.None? then NoOpinion
    else
      match PackAddress(key.localIp)
      case None => Raised
      case Some(lip) =>
        match PackAddress(key.remoteIp)
        case None => Raised
        case Some(rip) => Scan(Rows(table.value), Endpoints(lip, key.localPort, rip, key.remotePort), passwd)
  }

  /**
   * The search is decided by the first row that is not skipped: a row that
   * matches gives its owner's name (or `ERROR:NO-USER`), a row that cannot be
   * decoded raises, and when every row is skipped the driver has no opinion.
   */
  lemma {:induction false} ScanFirstDecisive(rows: seq<string>, want: Endpoints, passwd: map<int, string>, i: nat)
    requires i <= |rows|
    requires forall j {:trigger Examine(rows[j], want)} :: 0 <= j < i ==> Examine(rows[j], want).Skip?
    ensures i == |rows| ==> Scan(rows, want, passwd) == NoOpinion
    ensures i < |rows| && Examine(rows[i], want).Owner? ==>
      Scan(rows, want, passwd) == Says(UserName(passwd, Examine(rows[i], want).uid))
    ensures i < |rows| && Examine(rows[i], want).Fails? ==> Scan(rows, want, passwd) == Raised
    decreases i
  {
    if i > 0 {
      assert forall j :: 0 <= j < i - 1 ==> rows[1..][j] == rows[j + 1];
      ScanFirstDecisive(rows[1..], want, passwd, i - 1);
      assert i < |rows| ==> rows[1..][i - 1] == rows[i];
    }
  }

  /** `RealDriver.lookup`: the loop over the rows, with its early returns. */
  method Lookup(table: Option<seq<string>>, passwd: map<int, string>, key: ConnKey) returns (a: Answer)
    ensures a == RealLookup(table, passwd, key)
  {
    if table.None? {
      return NoOpinion;
    }
    var rows := Rows(table.value);
    var lip := PackAddress(key.localIp);
    if lip.None? {
      return Raised;
    }
    var rip := PackAddress(key.remoteIp);
    if rip.None? {
      return Raised;
    }
    var want := Endpoints(lip.value, key.localPort, rip.value, key.remotePort);
    var i := 0;
    while i < |rows|
      invariant i <= |rows|
      invariant Scan(rows[i..], want, passwd) == Scan(rows, want, passwd)
    {
      var v := Examine(rows[i], want);
      if v.Fails? {
        return Raised;
      }
      if v.Owner? {
        return Says(UserName(passwd, v.uid));
      }
      assert rows[i..][1..] == rows[i + 1..];
      i := i + 1;
    }
    return NoOpinion;
  }
}
