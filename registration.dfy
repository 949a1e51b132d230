/**
 * The registration channel (`SocketDriver`) and its peer sessions
 * (`SocketDriverClient`). Each session reads newline-terminated `add` and
 * `remove` commands from its connection and keeps its own table from
 * connection keys to user names; the channel answers a lookup from the first
 * session, in the order the sessions were accepted, that holds a non-empty
 * name for the key.
 *
 * A session's connection is modelled by the chunks its peer still sends
 * (`incoming`): `recv` returns the next chunk, and an empty chunk or the end
 * of the sequence is the peer closing the connection.
 */
module Registration {
  import opened Wrappers
  import opened Text
  import opened Ident

  /** The longest unterminated line `read_line` keeps buffering. */
  const MaxLine: nat := 1024

  // ---------------------------------------------------------------------------
  // The command language

  datatype Command =
    | Add(key: ConnKey, user: string)
    | Remove(key: ConnKey)
    | Ignored  // "Bad protocol on programming socket"

  /**
   * Length of the text matched by `\d+(\.\d+){groups-1}` at the start of `s`.
   * Every group is followed by a character that is not a digit, so the
   * greedy match is the only one.
   */
  function MatchGroups(s: string, groups: nat): (r: Option<nat>)
    requires groups >= 1
    ensures r.Some? ==> 0 < r.value <= |s|
    decreases groups
  {
    var d := DigitRun(s);
    if d == 0 then None
    else if groups == 1 then Some(d)
    else if d < |s| && s[d] == '.' then
      match MatchGroups(s[d + 1..], groups - 1)
      case None => None
      case Some(k) => Some(d + 1 + k)
    else None
  }

  /** The groups `(\d+\.\d+\.\d+\.\d+):(\d+)` of the regular expressions. */
  datatype Endpoint = Endpoint(ip: string, port: nat, len: nat)

  /** `(\d+\.\d+\.\d+\.\d+):(\d+)` at the start of `s`, with the port read by `int()`. */
  function MatchEndpoint(s: string): (r: Option<Endpoint>)
    ensures r.Some? ==> 0 < r.value.len <= |s|
  {
    PortAfter(s, MatchGroups(s, 4))
  }

  /** What follows the address group, `n` characters long: a colon and the port's digits. */
  function PortAfter(s: string, address: Option<nat>): (r: Option<Endpoint>)
    ensures r.Some? ==> 0 < r.value.len <= |s|
  {
    match address
    case None => None
    case Some(n) =>
      if n < |s| && s[n] == ':' then
        var p := DigitRun(s[n + 1..]);
        DigitRunSpec(s[n + 1..]);
        if p == 0 then None
        else Some(Endpoint(s[..n], DigitsValue(s[n + 1..][..p]), n + 1 + p))
      else None
  }

  /** The connection key named by `IP:PORT IP:PORT`, and the length of that text. */
  datatype KeyMatch = KeyMatch(key: ConnKey, len: nat)

  /** `(\d+\.\d+\.\d+\.\d+):(\d+) (\d+\.\d+\.\d+\.\d+):(\d+)` at the start of `r`. */
  function MatchKey(r: string): (m: Option<KeyMatch>)
    ensures m.Some? ==> m.value.len <= |r|
  {
    RemoteAfter(r, MatchEndpoint(r))
  }

  /** What follows the local endpoint: a space and the remote endpoint. */
  function RemoteAfter(r: string, local: Option<Endpoint>): (m: Option<KeyMatch>)
    ensures m.Some? ==> m.value.len <= |r|
  {
    match local
    case None => None
    case Some(e1) =>
      if e1.len < |r| && r[e1.len] == ' ' then Pair(e1, MatchEndpoint(r[e1.len + 1..]))
      else None
  }

  /** The key of a local endpoint and a remote one, and the length of the text naming both. */
  function Pair(local: Endpoint, remote: Option<Endpoint>): (m: Option<KeyMatch>)
    ensures m.Some? ==> remote.Some? && m.value.len == local.len + 1 + remote.value.len
  {
    match remote
    case None => None
    case Some(e2) => Some(KeyMatch(ConnKey(local.port, local.ip, e2.port, e2.ip), local.len + 1 + e2.len))
  }

  /** `add_re.match(l)`: `add IP:PORT IP:PORT USER`, anchored at the start only. */
  function ParseAdd(l: string): Option<Command> {
    if !StartsWith(l, "add ") then None else MatchAdd(l[4..])
  }

  /** The part of `add_re` after `add `: the key, a space, and `(.*)`. */
  function MatchAdd(r: string): Option<Command> {
    AddAfter(r, MatchKey(r))
  }

  /** What follows a matched key: a space, then the user up to the end of the line. */
  function AddAfter(r: string, key: Option<KeyMatch>): Option<Command> {
    match key
    case None => None
    case Some(m) =>
      // `(.*)` stops at a newline
      if m.len < |r| && r[m.len] == ' ' then Some(Add(m.key, BeforeFirst(r[m.len + 1..], '\n')))
      else None
  }

  /** `remove_re.match(l)`: `remove IP:PORT IP:PORT`, anchored at the start only. */
  function ParseRemove(l: string): Option<Command> {
    if !StartsWith(l, "remove ") then None
    else
      match MatchKey(l[7..])
      case None => None
      case Some(m) => Some(Remove(m.key))
  }

  /** The command a line holds: `add` is tried first, then `remove`. */
  function ParseCommand(l: string): Command {
    match ParseAdd(l)
    case Some(c) => c
    case None =>
      match ParseRemove(l)
      case Some(c) => c
      case None => Ignored
  }

  /** A line that starts with neither keyword is not a command and changes nothing. */
  lemma OtherLine(l: string)
    requires !StartsWith(l, "add ") && !StartsWith(l, "remove ")
    ensures ParseCommand(l) == Ignored
  {
  }

  /** What a command does to the session's table. */
  function Apply(table: map<ConnKey, string>, cmd: Command): (t: map<ConnKey, string>)
    ensures cmd.Add? ==> cmd.key in t && t[cmd.key] == cmd.user
    ensures cmd.Remove? ==> cmd.key !in t
    ensures cmd.Ignored? ==> t == table
    ensures forall k :: (cmd.Add? || cmd.Remove?) && k != cmd.key ==>
      (k in t <==> k in table) && (k in t ==> t[k] == table[k])
  {
    match cmd
    case Add(key, user) => table[key := user]
    case Remove(key) => table - {key}
    case Ignored => table
  }

  // ---------------------------------------------------------------------------
  // The lines a cooperating server writes, and how they are read back

  /** One or more decimal digits: what `\d+` matches. */
  predicate Numeral(t: string) {
    t != [] && AllDigits(t)
  }

  /** An endpoint as written on the channel: four dotted numerals, a colon, a numeral. */
  datatype Written = Written(a: string, b: string, c: string, d: string, port: string) {
    predicate Valid() {
      Numeral(a) && Numeral(b) && Numeral(c) && Numeral(d) && Numeral(port)
    }

    /** The address text, which becomes the key's address as it stands. */
    function Ip(): string {
      a + "." + b + "." + c + "." + d
    }

    function Text(): string {
      Ip() + ":" + port
    }
  }

  /** The key a pair of written endpoints names: the ports through `int()`, the addresses as text. */
  function WrittenKey(local: Written, remote: Written): ConnKey
    requires local.Valid() && remote.Valid()
  {
    ConnKey(DigitsValue(local.port), local.Ip(), DigitsValue(remote.port), remote.Ip())
  }

  /** `"add %s %s %s\n"` without its newline: the line registering `user` for a connection. */
  function AddLine(local: Written, remote: Written, user: string): string {
    "add " + local.Text() + " " + remote.Text() + " " + user
  }

  /** `"remove %s %s\n"` without its newline: the line withdrawing a registration. */
  function RemoveLine(local: Written, remote: Written): string {
    "remove " + local.Text() + " " + remote.Text()
  }

  /** A dotted group followed by more groups. */
  lemma MatchGroupsDot(s: string, d: string, tail: string, groups: nat, k: nat)
    requires s == d + ['.'] + tail
    requires Numeral(d) && groups >= 2
    requires MatchGroups(tail, groups - 1).Some? && MatchGroups(tail, groups - 1).value == k
    ensures MatchGroups(s, groups).Some? && MatchGroups(s, groups).value == |d| + 1 + k
  {
    assert s == d + (['.'] + tail);
    DigitRunOf(d, ['.'] + tail);
    assert s[|d|] == '.';
    assert s[|d| + 1..] == tail;
  }

  /** The last group, followed by a non-digit. */
  lemma MatchGroupsLast(s: string, d: string, rest: string)
    requires s == d + rest
    requires Numeral(d)
    requires rest == [] || !IsDigit(rest[0])
    ensures MatchGroups(s, 1).Some? && MatchGroups(s, 1).value == |d|
  {
    DigitRunOf(d, rest);
  }

  /** Two dotted groups, followed by a non-digit. */
  lemma MatchGroupsTwo(s: string, c: string, d: string, tail: string)
    requires s == c + ['.'] + (d + tail)
    requires Numeral(c) && Numeral(d)
    requires tail == [] || !IsDigit(tail[0])
    ensures MatchGroups(s, 2).Some? && MatchGroups(s, 2).value == |c| + 1 + |d|
  {
    MatchGroupsLast(d + tail, d, tail);
    MatchGroupsDot(s, c, d + tail, 2, |d|);
  }

  /** Three dotted groups, followed by a non-digit. */
  lemma MatchGroupsThree(s: string, b: string, c: string, d: string, tail: string)
    requires s == b + ['.'] + (c + ['.'] + (d + tail))
    requires Numeral(b) && Numeral(c) && Numeral(d)
    requires tail == [] || !IsDigit(tail[0])
    ensures MatchGroups(s, 3).Some? && MatchGroups(s, 3).value == |b| + 1 + (|c| + 1 + |d|)
  {
    var t := c + ['.'] + (d + tail);
    MatchGroupsTwo(t, c, d, tail);
    MatchGroupsDot(s, b, t, 3, |c| + 1 + |d|);
  }

  /** Four dotted groups, followed by a non-digit. */
  lemma MatchGroupsFour(s: string, a: string, b: string, c: string, d: string, tail: string)
    requires s == a + ['.'] + (b + ['.'] + (c + ['.'] + (d + tail)))
    requires Numeral(a) && Numeral(b) && Numeral(c) && Numeral(d)
    requires tail == [] || !IsDigit(tail[0])
    ensures MatchGroups(s, 4).Some? && MatchGroups(s, 4).value == |a| + 1 + (|b| + 1 + (|c| + 1 + |d|))
  {
    var t := b + ['.'] + (c + ['.'] + (d + tail));
    MatchGroupsThree(t, b, c, d, tail);
    MatchGroupsDot(s, a, t, 4, |b| + 1 + (|c| + 1 + |d|));
  }

  /** Regrouping a written address followed by more text. */
  lemma IpShape(w: Written, tail: string)
    ensures w.Ip() + tail == w.a + ['.'] + (w.b + ['.'] + (w.c + ['.'] + (w.d + tail)))
    ensures |w.Ip()| == |w.a| + 1 + (|w.b| + 1 + (|w.c| + 1 + |w.d|))
  {
    var dot := ['.'];
    var t4 := w.d + tail;
    var t3 := w.c + dot + t4;
    assert "." == dot;
    AppendAssoc(w.a + dot + w.b + dot + w.c + dot, w.d, tail);
    AppendAssoc(w.a + dot + w.b + dot + w.c, dot, t4);
    AppendAssoc(w.a + dot + w.b + dot, w.c, dot + t4);
    AppendAssoc(w.a + dot + w.b, dot, t3);
    AppendAssoc(w.a + dot, w.b, dot + t3);
  }

  /** A written address followed by a non-digit matches the address group, and nothing more. */
  lemma MatchIp(s: string, w: Written, tail: string)
    requires w.Valid() && s == w.Ip() + tail
    requires tail == [] || !IsDigit(tail[0])
    ensures MatchGroups(s, 4).Some? && MatchGroups(s, 4).value == |w.Ip()|
  {
    IpShape(w, tail);
    MatchGroupsFour(s, w.a, w.b, w.c, w.d, tail);
  }

  /** The endpoint matched once the address group and the port's digits are known. */
  lemma MatchEndpointAt(s: string, n: nat, p: nat)
    requires MatchGroups(s, 4).Some? && MatchGroups(s, 4).value == n
    requires n < |s| && s[n] == ':'
    requires DigitRun(s[n + 1..]) == p && p > 0
    requires AllDigits(s[n + 1..][..p])
    ensures MatchEndpoint(s).Some?
    ensures MatchEndpoint(s).value == Endpoint(s[..n], DigitsValue(s[n + 1..][..p]), n + 1 + p)
  {
    PortAfterAt(s, n, p);
  }

  /** The port read after an address group of `n` characters. */
  lemma PortAfterAt(s: string, n: nat, p: nat)
    requires n < |s| && s[n] == ':'
    requires DigitRun(s[n + 1..]) == p && p > 0
    requires AllDigits(s[n + 1..][..p])
    ensures PortAfter(s, Some(n)) == Some(Endpoint(s[..n], DigitsValue(s[n + 1..][..p]), n + 1 + p))
  {
  }

  /** Where the pieces of `q:port…` sit. */
  lemma PortShape(s: string, q: string, tp: string, rest: string)
    requires s == q + ":" + tp + rest
    ensures |q| < |s| && s[..|q|] == q && s[|q|] == ':'
    ensures s[|q| + 1..] == tp + rest && (tp + rest)[..|tp|] == tp
  {
  }

  /** A port numeral followed by something that is not a digit. */
  lemma MatchPort(s: string, q: string, tp: string, rest: string)
    requires s == q + ":" + tp + rest
    requires MatchGroups(s, 4).Some? && MatchGroups(s, 4).value == |q|
    requires Numeral(tp)
    requires rest == [] || !IsDigit(rest[0])
    ensures MatchEndpoint(s).Some?
    ensures MatchEndpoint(s).value == Endpoint(q, DigitsValue(tp), |q| + 1 + |tp|)
  {
    PortShape(s, q, tp, rest);
    DigitRunOf(tp, rest);
    MatchEndpointAt(s, |q|, |tp|);
  }

  /** A written endpoint followed by something that is not a digit is matched as that endpoint. */
  lemma MatchWritten(s: string, w: Written, rest: string)
    requires w.Valid() && s == w.Text() + rest
    requires rest == [] || !IsDigit(rest[0])
    ensures MatchEndpoint(s).Some?
    ensures MatchEndpoint(s).value == Endpoint(w.Ip(), DigitsValue(w.port), |w.Text()|)
  {
    assert s == w.Ip() + (":" + w.port + rest) by {
      AppendAssoc(w.Ip() + ":", w.port, rest);
      AppendAssoc(w.Ip(), ":", w.port + rest);
    }
    MatchIp(s, w, ":" + w.port + rest);
    MatchPort(s, w.Ip(), w.port, rest);
  }

  /** The key matched once both endpoints are known; `s` is the text after the local one and a space. */
  lemma MatchKeyAt(r: string, e1: Endpoint, s: string, e2: Endpoint)
    requires MatchEndpoint(r).Some? && MatchEndpoint(r).value == e1
    requires e1.len < |r| && r[e1.len] == ' ' && s == r[e1.len + 1..]
    requires MatchEndpoint(s).Some? && MatchEndpoint(s).value == e2
    ensures MatchKey(r).Some?
    ensures MatchKey(r).value == KeyMatch(ConnKey(e1.port, e1.ip, e2.port, e2.ip), e1.len + 1 + e2.len)
  {
    assert MatchKey(r) == RemoteAfter(r, MatchEndpoint(r));
    RemoteAfterAt(r, e1, s, e2);
  }

  /** The key matched after a local endpoint, once the remote one is known. */
  lemma RemoteAfterAt(r: string, e1: Endpoint, s: string, e2: Endpoint)
    requires e1.len < |r| && r[e1.len] == ' ' && s == r[e1.len + 1..]
    requires MatchEndpoint(s).Some? && MatchEndpoint(s).value == e2
    ensures RemoteAfter(r, Some(e1)) == Some(KeyMatch(ConnKey(e1.port, e1.ip, e2.port, e2.ip), e1.len + 1 + e2.len))
  {
    RemoteAfterIs(r, e1, s);
    PairOf(e1, MatchEndpoint(s), e2);
  }

  /** After a local endpoint and a space, the remote endpoint is matched on the rest. */
  lemma RemoteAfterIs(r: string, e1: Endpoint, s: string)
    requires e1.len < |r| && r[e1.len] == ' ' && s == r[e1.len + 1..]
    ensures RemoteAfter(r, Some(e1)) == Pair(e1, MatchEndpoint(s))
  {
  }

  /** Two endpoints make a key: local port and address, then remote port and address. */
  lemma PairOf(e1: Endpoint, remote: Option<Endpoint>, e2: Endpoint)
    requires remote.Some? && remote.value == e2
    ensures Pair(e1, remote) == Some(KeyMatch(ConnKey(e1.port, e1.ip, e2.port, e2.ip), e1.len + 1 + e2.len))
  {
  }

  /** Where the pieces of `local remote…` sit. */
  lemma PairShape(r: string, t1: string, t2: string, rest: string)
    requires r == t1 + " " + t2 + rest
    ensures r == t1 + (" " + (t2 + rest))
    ensures |t1| < |r| && r[|t1|] == ' ' && r[|t1| + 1..] == t2 + rest
  {
  }

  /** Two endpoints separated by a space, each matched on its own, name their key. */
  lemma MatchPairAt(r: string, t1: string, t2: string, rest: string, e1: Endpoint, e2: Endpoint)
    requires r == t1 + " " + t2 + rest
    requires MatchEndpoint(t1 + (" " + (t2 + rest))).Some? && MatchEndpoint(t1 + (" " + (t2 + rest))).value == e1
    requires e1.len == |t1|
    requires MatchEndpoint(t2 + rest).Some? && MatchEndpoint(t2 + rest).value == e2
    ensures MatchKey(r).Some?
    ensures MatchKey(r).value == KeyMatch(ConnKey(e1.port, e1.ip, e2.port, e2.ip), |t1| + 1 + e2.len)
  {
    PairShape(r, t1, t2, rest);
    MatchKeyAt(r, e1, t2 + rest, e2);
  }

  /** Two written endpoints separated by a space, then a non-digit, name their key. */
  lemma MatchPair(r: string, local: Written, remote: Written, rest: string)
    requires local.Valid() && remote.Valid()
    requires r == local.Text() + " " + remote.Text() + rest
    requires rest == [] || !IsDigit(rest[0])
    ensures MatchKey(r).Some?
    ensures MatchKey(r).value == KeyMatch(WrittenKey(local, remote), |local.Text()| + 1 + |remote.Text()|)
  {
    var t1, t2 := local.Text(), remote.Text();
    var e1 := Endpoint(local.Ip(), DigitsValue(local.port), |t1|);
    var e2 := Endpoint(remote.Ip(), DigitsValue(remote.port), |t2|);
    MatchWritten(t1 + (" " + (t2 + rest)), local, " " + (t2 + rest));
    MatchWritten(t2 + rest, remote, rest);
    MatchPairAt(r, t1, t2, rest, e1, e2);
  }

  /** Where the pieces of an `add` line sit. */
  lemma AddShape(l: string, t1: string, t2: string, user: string)
    requires l == "add " + t1 + " " + t2 + " " + user
    ensures StartsWith(l, "add ")
    ensures l[4..] == t1 + " " + t2 + (" " + user)
    ensures l[4..][|t1| + 1 + |t2|] == ' ' && l[4..][|t1| + 1 + |t2| + 1..] == user
  {
    assert l == "add " + l[4..];
  }

  /** What `ParseAdd` makes of a line once its key is matched. */
  lemma ParseAddAt(l: string, key: ConnKey, n: nat, user: string)
    requires StartsWith(l, "add ")
    requires MatchKey(l[4..]).Some? && MatchKey(l[4..]).value == KeyMatch(key, n)
    requires n < |l[4..]| && l[4..][n] == ' ' && l[4..][n + 1..] == user && '\n' !in user
    ensures ParseAdd(l).Some? && ParseAdd(l).value == Add(key, user)
  {
    MatchAddAt(l[4..], key, n, user);
  }

  /** What `MatchAdd` makes of the text after `add ` once its key is matched. */
  lemma MatchAddAt(r: string, key: ConnKey, n: nat, user: string)
    requires MatchKey(r).Some? && MatchKey(r).value == KeyMatch(key, n)
    requires n < |r| && r[n] == ' ' && r[n + 1..] == user && '\n' !in user
    ensures MatchAdd(r).Some? && MatchAdd(r).value == Add(key, user)
  {
    AddAfterAt(r, key, n, user);
  }

  /** The user is the rest of the line after the key and a space. */
  lemma AddAfterAt(r: string, key: ConnKey, n: nat, user: string)
    requires n < |r| && r[n] == ' ' && r[n + 1..] == user && '\n' !in user
    ensures AddAfter(r, Some(KeyMatch(key, n))) == Some(Add(key, user))
  {
    BeforeFirstAbsent(user, '\n');
  }

  /**
   * An `add` line in the channel's format is read back as the registration
   * it announces: the ports as `int()` reads them, the addresses as written
   * and the user as the rest of the line.
   */
  lemma ParseAddLine(local: Written, remote: Written, user: string)
    requires local.Valid() && remote.Valid()
    requires '\n' !in user
    ensures ParseCommand(AddLine(local, remote, user)) == Add(WrittenKey(local, remote), user)
  {
    var l := AddLine(local, remote, user);
    AddShape(l, local.Text(), remote.Text(), user);
    assert !IsDigit((" " + user)[0]);
    MatchPair(l[4..], local, remote, " " + user);
    ParseAddAt(l, WrittenKey(local, remote), |local.Text()| + 1 + |remote.Text()|, user);
  }

  /** Where the pieces of a `remove` line, and whatever follows it, sit. */
  lemma RemoveShape(l: string, t1: string, t2: string, junk: string)
    requires l == "remove " + t1 + " " + t2 + junk
    ensures !StartsWith(l, "add ") && StartsWith(l, "remove ")
    ensures l[7..] == t1 + " " + t2 + junk
  {
    assert l[1] == 'e';
    assert l == "remove " + l[7..];
  }

  /**
   * A `remove` line in the channel's format is read back as the key it
   * withdraws; the pattern is anchored at the start only, so text after the
   * key that does not continue its port is disregarded.
   */
  lemma ParseRemoveTrailing(local: Written, remote: Written, junk: string)
    requires local.Valid() && remote.Valid()
    requires junk == [] || !IsDigit(junk[0])
    ensures ParseCommand(RemoveLine(local, remote) + junk) == Remove(WrittenKey(local, remote))
  {
    var l := RemoveLine(local, remote) + junk;
    RemoveShape(l, local.Text(), remote.Text(), junk);
    MatchPair(l[7..], local, remote, junk);
  }

  /** A `remove` line in the channel's format is read back as the key it withdraws. */
  lemma ParseRemoveLine(local: Written, remote: Written)
    requires local.Valid() && remote.Valid()
    ensures ParseCommand(RemoveLine(local, remote)) == Remove(WrittenKey(local, remote))
  {
    ParseRemoveTrailing(local, remote, "");
    assert RemoveLine(local, remote) + "" == RemoveLine(local, remote);
  }

  /** An endpoint written with `%d` for each number. */
  function Printed(a: nat, b: nat, c: nat, d: nat, port: nat): Written {
    Written(NatText(a), NatText(b), NatText(c), NatText(d), NatText(port))
  }

  /** Numbers printed with `%d` make a valid written endpoint naming those numbers. */
  lemma PrintedEndpoint(a: nat, b: nat, c: nat, d: nat, port: nat)
    ensures var w := Printed(a, b, c, d, port);
      w.Valid() && w.Ip() == QuadText(a, b, c, d) && DigitsValue(w.port) == port
  {
  }

  /**
   * An `add` line printed from numbers registers the connection those
   * numbers name, its addresses in dotted decimal, for the user given.
   */
  lemma PrintedAddLine(a: nat, b: nat, c: nat, d: nat, lport: nat,
                       e: nat, f: nat, g: nat, h: nat, rport: nat, user: string)
    requires '\n' !in user
    ensures ParseCommand(AddLine(Printed(a, b, c, d, lport), Printed(e, f, g, h, rport), user))
      == Add(ConnKey(lport, QuadText(a, b, c, d), rport, QuadText(e, f, g, h)), user)
  {
    PrintedEndpoint(a, b, c, d, lport);
    PrintedEndpoint(e, f, g, h, rport);
    ParseAddLine(Printed(a, b, c, d, lport), Printed(e, f, g, h, rport), user);
  }

  /** A `remove` line printed from numbers withdraws the connection those numbers name. */
  lemma PrintedRemoveLine(a: nat, b: nat, c: nat, d: nat, lport: nat,
                          e: nat, f: nat, g: nat, h: nat, rport: nat)
    ensures ParseCommand(RemoveLine(Printed(a, b, c, d, lport), Printed(e, f, g, h, rport)))
      == Remove(ConnKey(lport, QuadText(a, b, c, d), rport, QuadText(e, f, g, h)))
  {
    PrintedEndpoint(a, b, c, d, lport);
    PrintedEndpoint(e, f, g, h, rport);
    ParseRemoveLine(Printed(a, b, c, d, lport), Printed(e, f, g, h, rport));
  }

  // ---------------------------------------------------------------------------
  // Every line the patterns accept has the channel's format

  /** The digits at the start of `s`, and what follows the character after them. */
  function Cut(s: string): (string, string)
    requires DigitRun(s) < |s|
  {
    (s[..DigitRun(s)], s[DigitRun(s) + 1..])
  }

  /** A matched group followed by more groups: digits, a dot, and the rest. */
  lemma MatchGroupsCut(s: string, groups: nat)
    requires groups >= 2 && MatchGroups(s, groups).Some?
    ensures DigitRun(s) < |s| && Numeral(Cut(s).0)
    ensures s == Cut(s).0 + "." + Cut(s).1
    ensures MatchGroups(Cut(s).1, groups - 1).Some?
    ensures MatchGroups(s, groups).value == |Cut(s).0| + 1 + MatchGroups(Cut(s).1, groups - 1).value
  {
    DigitRunSpec(s);
    assert s == s[..DigitRun(s)] + [s[DigitRun(s)]] + s[DigitRun(s) + 1..];
  }

  /** The last matched group is a numeral. */
  lemma MatchGroupsOne(s: string)
    requires MatchGroups(s, 1).Some?
    ensures MatchGroups(s, 1).value == DigitRun(s) && Numeral(s[..DigitRun(s)])
  {
    DigitRunSpec(s);
  }

  /** The four numerals of the address matched at the start of `s` (the port is left empty). */
  function MatchedAddress(s: string): Written
    requires MatchGroups(s, 4).Some?
  {
    MatchGroupsCut(s, 4);
    var s1 := Cut(s).1;
    MatchGroupsCut(s1, 3);
    var s2 := Cut(s1).1;
    MatchGroupsCut(s2, 2);
    var s3 := Cut(s2).1;
    Written(Cut(s).0, Cut(s1).0, Cut(s2).0, s3[..DigitRun(s3)], "")
  }

  /** `s` starts with the four numerals of `w`, dotted, `n` characters in all. */
  predicate AddressAt(s: string, w: Written, n: nat) {
    && Numeral(w.a) && Numeral(w.b) && Numeral(w.c) && Numeral(w.d)
    && n == |w.Ip()| && n <= |s| && s[..n] == w.Ip()
  }

  /** What `\d+\.\d+\.\d+\.\d+` matches is a written address. */
  lemma {:induction false} AddressForm(s: string)
    requires MatchGroups(s, 4).Some?
    ensures AddressAt(s, MatchedAddress(s), MatchGroups(s, 4).value)
  {
    MatchGroupsCut(s, 4);
    var s1 := Cut(s).1;
    MatchGroupsCut(s1, 3);
    var s2 := Cut(s1).1;
    MatchGroupsCut(s2, 2);
    var s3 := Cut(s2).1;
    MatchGroupsOne(s3);
    var d := s3[..DigitRun(s3)];
    var w := Written(Cut(s).0, Cut(s1).0, Cut(s2).0, d, "");
    assert MatchedAddress(s) == w;
    TakeDrop(s3, DigitRun(s3));
    Regroup(s, w, s1, s2, s3, s3[DigitRun(s3)..]);
  }

  /** A dotted address, spelled out one group at a time. */
  lemma Regroup(s: string, w: Written, s1: string, s2: string, s3: string, t: string)
    requires s == w.a + "." + s1 && s1 == w.b + "." + s2 && s2 == w.c + "." + s3 && s3 == w.d + t
    ensures s[..|w.Ip()|] == w.Ip()
    ensures |w.Ip()| == |w.a| + 1 + (|w.b| + 1 + (|w.c| + 1 + |w.d|))
  {
    IpShape(w, t);
    Halves(s, w.Ip(), t);
  }

  /**
   * After `n` characters `s` holds a colon and `p` digits, not followed by
   * another, and `e` is the endpoint read from them.
   */
  predicate PortAt(s: string, n: nat, p: nat, e: Endpoint) {
    && n + 1 + p <= |s| && s[n] == ':' && 0 < p && AllDigits(s[n + 1..][..p])
    && (n + 1 + p < |s| ==> !IsDigit(s[n + 1 + p]))
    && e == Endpoint(s[..n], DigitsValue(s[n + 1..][..p]), n + 1 + p)
  }

  /** A port matched after an address of `n` characters: a colon, then digits and no more. */
  lemma PortAfterIs(s: string, n: nat)
    requires PortAfter(s, Some(n)).Some?
    ensures PortAt(s, n, DigitRun(s[n + 1..]), PortAfter(s, Some(n)).value)
  {
    DigitRunSpec(s[n + 1..]);
  }

  /** A text with a space at `n` continues with that space and the rest. */
  lemma SpaceAt(s: string, n: nat)
    requires n < |s| && s[n] == ' '
    ensures s[n..] == " " + s[n + 1..]
  {
  }

  /** The two halves of a concatenation are found again by slicing. */
  lemma Halves(s: string, x: string, y: string)
    requires s == x + y
    ensures s[..|x|] == x && s[|x|..] == y
  {
  }

  /** The start of a text: `n` characters, one more, and `p` after that. */
  lemma Slice3(s: string, n: nat, p: nat)
    requires n + 1 + p <= |s|
    ensures s[..n + 1 + p] == s[..n] + [s[n]] + s[n + 1..][..p]
  {
  }

  /** `s` starts with the endpoint `w`, read as `e`, and no digit follows it. */
  predicate EndpointAt(s: string, w: Written, e: Endpoint) {
    && w.Valid() && e.ip == w.Ip() && e.port == DigitsValue(w.port)
    && e.len == |w.Text()| && e.len <= |s| && s[..e.len] == w.Text()
    && (e.len < |s| ==> !IsDigit(s[e.len]))
  }

  /**
   * What `(\d+\.\d+\.\d+\.\d+):(\d+)` matches is a written endpoint, and
   * no digit follows it.
   */
  lemma EndpointForm(s: string)
    requires MatchEndpoint(s).Some?
    ensures exists w: Written :: EndpointAt(s, w, MatchEndpoint(s).value)
  {
    var n := MatchGroups(s, 4).value;
    var p := DigitRun(s[n + 1..]);
    PortAfterIs(s, n);
    AddressForm(s);
    EndpointOf(s, MatchedAddress(s), n, p, MatchEndpoint(s).value);
    assert EndpointAt(s, MatchedAddress(s).(port := s[n + 1..][..p]), MatchEndpoint(s).value);
  }

  /** An address, a colon and the port's digits make a written endpoint. */
  lemma EndpointOf(s: string, a: Written, n: nat, p: nat, e: Endpoint)
    requires AddressAt(s, a, n) && PortAt(s, n, p, e)
    ensures EndpointAt(s, a.(port := s[n + 1..][..p]), e)
  {
    Slice3(s, n, p);
    assert [s[n]] == ":";
  }

  /**
   * `r` starts with the written endpoints `local` and `remote` separated by
   * a space, `m` is the key read from them, and no digit follows it.
   */
  predicate KeyAt(r: string, local: Written, remote: Written, m: KeyMatch) {
    && local.Valid() && remote.Valid() && m.key == WrittenKey(local, remote)
    && m.len == |local.Text()| + 1 + |remote.Text()| && m.len <= |r|
    && r[..m.len] == local.Text() + " " + remote.Text()
    && (m.len < |r| ==> !IsDigit(r[m.len]))
  }

  /** What the key's pattern matches is two written endpoints and a space, and no digit follows it. */
  lemma KeyForm(r: string)
    requires MatchKey(r).Some?
    ensures exists local: Written, remote: Written :: KeyAt(r, local, remote, MatchKey(r).value)
  {
    var e1 := MatchEndpoint(r).value;
    var s := r[e1.len + 1..];
    var e2 := MatchEndpoint(s).value;
    RemoteAfterIs(r, e1, s);
    PairOf(e1, MatchEndpoint(s), e2);
    EndpointForm(r);
    EndpointForm(s);
    var local: Written :| EndpointAt(r, local, e1);
    var remote: Written :| EndpointAt(s, remote, e2);
    KeyOf(r, local, remote, e1, e2);
  }

  /** Two written endpoints separated by a space make a key. */
  lemma KeyOf(r: string, local: Written, remote: Written, e1: Endpoint, e2: Endpoint)
    requires EndpointAt(r, local, e1) && e1.len < |r| && r[e1.len] == ' '
    requires EndpointAt(r[e1.len + 1..], remote, e2)
    ensures KeyAt(r, local, remote, KeyMatch(ConnKey(e1.port, e1.ip, e2.port, e2.ip), e1.len + 1 + e2.len))
  {
    Slice3(r, e1.len, e2.len);
    assert [r[e1.len]] == " ";
  }

  /** A line that starts with `h`, then `k`, then the rest. */
  lemma Spelled(l: string, h: string, k: string)
    requires |h| <= |l| && l[..|h|] == h
    requires |k| <= |l[|h|..]| && l[|h|..][..|k|] == k
    ensures l == h + k + l[|h|..][|k|..]
  {
    TakeDrop(l, |h|);
    TakeDrop(l[|h|..], |k|);
  }

  /**
   * `l` is the `add` line for `local`, `remote` and what follows the key
   * `m` and a space, and `m` is their key.
   */
  predicate AddAt(l: string, local: Written, remote: Written, m: KeyMatch) {
    && local.Valid() && remote.Valid() && m.key == WrittenKey(local, remote)
    && 4 + m.len + 1 <= |l| && l == AddLine(local, remote, l[4..][m.len + 1..])
  }

  /** A line of `add `, a matched key and a space is an `add` line. */
  lemma AddWritten(l: string)
    requires StartsWith(l, "add ") && MatchKey(l[4..]).Some?
    requires MatchKey(l[4..]).value.len < |l[4..]| && l[4..][MatchKey(l[4..]).value.len] == ' '
    ensures exists local: Written, remote: Written :: AddAt(l, local, remote, MatchKey(l[4..]).value)
  {
    var r := l[4..];
    var m := MatchKey(r).value;
    KeyForm(r);
    var local: Written, remote: Written :| KeyAt(r, local, remote, m);
    AddSpelled(l, local, remote, m);
    assert AddAt(l, local, remote, m);
  }

  /** A line of `add `, a key's text and a space is the `add` line for the rest. */
  lemma AddSpelled(l: string, local: Written, remote: Written, m: KeyMatch)
    requires StartsWith(l, "add ") && KeyAt(l[4..], local, remote, m)
    requires m.len < |l[4..]| && l[4..][m.len] == ' '
    ensures l == AddLine(local, remote, l[4..][m.len + 1..])
  {
    var k := local.Text() + " " + remote.Text();
    Spelled(l, "add ", k);
    SpaceAt(l[4..], m.len);
    AddLineIs(local, remote, l[4..][m.len + 1..]);
  }

  /**
   * `l` is the `remove` line for `local` and `remote` followed by what
   * follows the key `m`, which does not start with a digit, and `m` is
   * their key.
   */
  predicate RemoveAt(l: string, local: Written, remote: Written, m: KeyMatch) {
    && local.Valid() && remote.Valid() && m.key == WrittenKey(local, remote)
    && 7 + m.len <= |l| && l == RemoveLine(local, remote) + l[7..][m.len..]
    && (l[7..][m.len..] == [] || !IsDigit(l[7..][m.len..][0]))
  }

  /** A line of `remove ` and a matched key is a `remove` line followed by the rest. */
  lemma RemoveWritten(l: string)
    requires StartsWith(l, "remove ") && MatchKey(l[7..]).Some?
    ensures exists local: Written, remote: Written :: RemoveAt(l, local, remote, MatchKey(l[7..]).value)
  {
    var r := l[7..];
    var m := MatchKey(r).value;
    KeyForm(r);
    var local: Written, remote: Written :| KeyAt(r, local, remote, m);
    RemoveSpelled(l, local, remote, m);
    assert RemoveAt(l, local, remote, m);
  }

  /** A line of `remove ` and a key's text is the `remove` line followed by the rest. */
  lemma RemoveSpelled(l: string, local: Written, remote: Written, m: KeyMatch)
    requires StartsWith(l, "remove ") && KeyAt(l[7..], local, remote, m)
    ensures l == RemoveLine(local, remote) + l[7..][m.len..]
    ensures l[7..][m.len..] == [] || !IsDigit(l[7..][m.len..][0])
  {
    Spelled(l, "remove ", local.Text() + " " + remote.Text());
    RemoveLineIs(local, remote);
  }

  /** An `add` line is `add `, the key's text, a space and the user. */
  lemma AddLineIs(local: Written, remote: Written, user: string)
    ensures AddLine(local, remote, user) == "add " + (local.Text() + " " + remote.Text()) + (" " + user)
  {
  }

  /** A `remove` line is `remove ` and the key's text. */
  lemma RemoveLineIs(local: Written, remote: Written)
    ensures RemoveLine(local, remote) == "remove " + (local.Text() + " " + remote.Text())
  {
  }

  /**
   * `l` is the `add` line for `local`, `remote` and `rest`, and registers
   * the user that `rest` holds up to a newline for their key.
   */
  predicate ReadsAsAdd(l: string, local: Written, remote: Written, rest: string) {
    && local.Valid() && remote.Valid()
    && l == AddLine(local, remote, rest)
    && ParseCommand(l) == Add(WrittenKey(local, remote), BeforeFirst(rest, '\n'))
  }

  /**
   * `l` is the `remove` line for `local` and `remote` followed by `junk`,
   * which does not start with a digit, and withdraws their key.
   */
  predicate ReadsAsRemove(l: string, local: Written, remote: Written, junk: string) {
    && local.Valid() && remote.Valid()
    && l == RemoveLine(local, remote) + junk
    && (junk == [] || !IsDigit(junk[0]))
    && ParseCommand(l) == Remove(WrittenKey(local, remote))
  }

  /** A line read as an `add`: `add `, a key, a space, and the user after it. */
  lemma ParseAddIs(l: string)
    requires ParseCommand(l).Add?
    ensures StartsWith(l, "add ") && MatchKey(l[4..]).Some?
    ensures var r, m := l[4..], MatchKey(l[4..]).value;
      m.len < |r| && r[m.len] == ' ' && ParseCommand(l) == Add(m.key, BeforeFirst(r[m.len + 1..], '\n'))
  {
    assert ParseAdd(l).Some?;
  }

  /** A line read as a `remove`: `remove ` and a key. */
  lemma ParseRemoveIs(l: string)
    requires ParseCommand(l).Remove?
    ensures StartsWith(l, "remove ") && MatchKey(l[7..]).Some?
    ensures ParseCommand(l) == Remove(MatchKey(l[7..]).value.key)
  {
    assert ParseAdd(l).None? && ParseRemove(l).Some?;
  }

  /**
   * Every line read as an `add` is an `add` line in the channel's format,
   * and registers the user it ends with (up to a newline) for the key it
   * names: `add_re` accepts nothing else.
   */
  lemma ParsedAdd(l: string)
    requires ParseCommand(l).Add?
    ensures exists local: Written, remote: Written, rest: string :: ReadsAsAdd(l, local, remote, rest)
  {
    ParseAddIs(l);
    var r := l[4..];
    var m := MatchKey(r).value;
    AddWritten(l);
    var local: Written, remote: Written :| AddAt(l, local, remote, m);
    assert ReadsAsAdd(l, local, remote, r[m.len + 1..]);
  }

  /**
   * Every line read as a `remove` is a `remove` line in the channel's
   * format, followed by text that does not start with a digit, and
   * withdraws the key it names: `remove_re` accepts nothing else.
   */
  lemma ParsedRemove(l: string)
    requires ParseCommand(l).Remove?
    ensures exists local: Written, remote: Written, junk: string :: ReadsAsRemove(l, local, remote, junk)
  {
    ParseRemoveIs(l);
    var r := l[7..];
    var m := MatchKey(r).value;
    RemoveWritten(l);
    var local: Written, remote: Written :| RemoveAt(l, local, remote, m);
    assert ReadsAsRemove(l, local, remote, r[m.len..]);
  }

  /**
   * Every line is ignored, or is an `add` or a `remove` in the channel's
   * format: a keyword line the patterns reject changes no table.
   */
  lemma LineCases(l: string)
    ensures || ParseCommand(l) == Ignored
            || (exists local: Written, remote: Written, rest: string :: ReadsAsAdd(l, local, remote, rest))
            || (exists local: Written, remote: Written, junk: string :: ReadsAsRemove(l, local, remote, junk))
  {
    if ParseCommand(l).Add? {
      ParsedAdd(l);
    } else if ParseCommand(l).Remove? {
      ParsedRemove(l);
    }
  }

  // ---------------------------------------------------------------------------
  // read_line

  /** The result of `read_line`: the line (or `None`), the new `buf`, the unread chunks. */
  datatype LineRead = LineRead(line: Option<string>, rest: string, incoming: seq<string>)

  /** `read_line`, as a function of `buf` and the chunks still to come. */
  function NextLine(buf: string, incoming: seq<string>): LineRead
    decreases |incoming|
  {
    if '\n' in buf then
      var i := IndexOf(buf, '\n');
      LineRead(Some(buf[..i]), buf[i + 1..], incoming)
    else if |buf| > MaxLine then LineRead(None, buf, incoming)
    else if incoming == [] then LineRead(None, buf, [])
    else if incoming[0] == "" then LineRead(None, buf, incoming[1..])
    else NextLine(buf + incoming[0], incoming[1..])
  }

  /**
   * How `read_line` ended after appending the first `k` chunks. Until then
   * the buffer held no newline and at most 1024 bytes and every chunk was
   * non-empty; then it found a newline and split there, or the buffer had
   * outgrown the limit without one, or the peer had closed the connection.
   */
  ghost predicate ReadsUpTo(buf: string, incoming: seq<string>, k: nat, r: LineRead) {
    && k <= |incoming|
    && (forall j :: 0 <= j < k ==>
          && incoming[j] != ""
          && '\n' !in Received(buf, incoming, j)
          && |Received(buf, incoming, j)| <= MaxLine)
    && match r.line
       case Some(l) =>
         && Received(buf, incoming, k) == l + "\n" + r.rest
         && '\n' !in l
         && r.incoming == incoming[k..]
       case None =>
         && r.rest == Received(buf, incoming, k)
         && '\n' !in r.rest
         && ((|r.rest| > MaxLine && r.incoming == incoming[k..])
             || (|r.rest| <= MaxLine && k == |incoming| && r.incoming == [])
             || (|r.rest| <= MaxLine && k < |incoming| && incoming[k] == "" && r.incoming == incoming[k + 1..]))
  }

  /** Reading on past a buffer with no newline is reading one non-empty chunk more. */
  lemma ReadsUpToShift(buf: string, incoming: seq<string>, k: nat, r: LineRead)
    requires incoming != [] && incoming[0] != ""
    requires '\n' !in buf && |buf| <= MaxLine
    ensures ReadsUpTo(buf, incoming, k + 1, r) <==> ReadsUpTo(buf + incoming[0], incoming[1..], k, r)
  {
    var b := buf + incoming[0];
    var tail := incoming[1..];
    if k < |incoming| {
      forall j | 1 <= j <= k + 1
        ensures Received(buf, incoming, j) == Received(b, tail, j - 1)
      {
        ReceivedShift(buf, incoming, j);
      }
      ReceivedNone(buf, incoming);
      assert tail[k..] == incoming[k + 1..];
      if k < |tail| {
        assert tail[k] == incoming[k + 1];
        assert tail[k + 1..] == incoming[k + 2..];
      }
      if ReadsUpTo(buf, incoming, k + 1, r) {
        forall j | 0 <= j < k
          ensures tail[j] != "" && '\n' !in Received(b, tail, j) && |Received(b, tail, j)| <= MaxLine
        {
          assert tail[j] == incoming[j + 1];
          assert Received(b, tail, j) == Received(buf, incoming, j + 1);
        }
      }
      if ReadsUpTo(b, tail, k, r) {
        forall j | 0 <= j < k + 1
          ensures incoming[j] != "" && '\n' !in Received(buf, incoming, j) && |Received(buf, incoming, j)| <= MaxLine
        {
          if j > 0 {
            assert incoming[j] == tail[j - 1];
            assert Received(buf, incoming, j) == Received(b, tail, j - 1);
          }
        }
      }
    }
  }

  /** `read_line` stops before appending anything. */
  lemma ReadsNothing(buf: string, incoming: seq<string>)
    requires '\n' in buf || |buf| > MaxLine || incoming == [] || incoming[0] == ""
    ensures ReadsUpTo(buf, incoming, 0, NextLine(buf, incoming))
  {
    if '\n' in buf {
      ReadsBuffered(buf, incoming);
    } else {
      ReadsStopped(buf, incoming);
    }
  }

  /** A newline already in the buffer: the line before it is split off. */
  lemma ReadsBuffered(buf: string, incoming: seq<string>)
    requires '\n' in buf
    ensures ReadsUpTo(buf, incoming, 0, NextLine(buf, incoming))
  {
    ReceivedNone(buf, incoming);
    assert incoming[0..] == incoming;
    var i := IndexOf(buf, '\n');
    assert NextLine(buf, incoming) == LineRead(Some(buf[..i]), buf[i + 1..], incoming);
    assert buf == buf[..i] + "\n" + buf[i + 1..];
  }

  /** No newline, and the buffer is too long or the peer has closed: no line. */
  lemma ReadsStopped(buf: string, incoming: seq<string>)
    requires '\n' !in buf
    requires |buf| > MaxLine || incoming == [] || incoming[0] == ""
    ensures ReadsUpTo(buf, incoming, 0, NextLine(buf, incoming))
  {
    ReceivedNone(buf, incoming);
    assert incoming[0..] == incoming;
    var r := NextLine(buf, incoming);
    if |buf| > MaxLine {
      assert r == LineRead(None, buf, incoming);
    } else if incoming == [] {
      assert r == LineRead(None, buf, []);
    } else {
      assert r == LineRead(None, buf, incoming[1..]);
    }
  }

  /**
   * `read_line` returns the text before the first newline of what it has
   * read and keeps the rest in `buf`; it gives up, keeping what it read, when
   * more than 1024 bytes hold no newline or when the peer closes.
   */
  lemma {:induction false} NextLineReads(buf: string, incoming: seq<string>)
    ensures exists k: nat :: ReadsUpTo(buf, incoming, k, NextLine(buf, incoming))
    decreases |incoming|
  {
    if '\n' in buf || |buf| > MaxLine || incoming == [] || incoming[0] == "" {
      ReadsNothing(buf, incoming);
    } else {
      var r := NextLine(buf, incoming);
      assert r == NextLine(buf + incoming[0], incoming[1..]);
      NextLineReads(buf + incoming[0], incoming[1..]);
      var k: nat :| ReadsUpTo(buf + incoming[0], incoming[1..], k, r);
      ReadsUpToShift(buf, incoming, k, r);
    }
  }

  /** The line split off a buffer holding a newline is the text before the first one. */
  lemma FirstNewline(buf: string, l: string, rest: string)
    requires buf == l + "\n" + rest && '\n' !in l
    ensures '\n' in buf && IndexOf(buf, '\n') == |l|
  {
    var i := IndexOf(buf, '\n');
    assert buf[|l|] == '\n';
    assert forall k :: 0 <= k < |l| ==> buf[k] == l[k];
    assert forall k :: 0 <= k < i ==> buf[..i][k] == buf[k];
  }

  /**
   * Only `read_line`'s own result ends a read as `ReadsUpTo` describes it:
   * whatever stops at the first newline, at the first buffer over 1024 bytes
   * or at the peer's close is what `read_line` returns.
   */
  lemma {:induction false} ReadsUpToNextLine(buf: string, incoming: seq<string>, k: nat, r: LineRead)
    requires ReadsUpTo(buf, incoming, k, r)
    ensures r == NextLine(buf, incoming)
    decreases k
  {
    if k == 0 {
      ReadsNothingNextLine(buf, incoming, r);
    } else {
      ReceivedNone(buf, incoming);
      assert incoming[0] != "" && '\n' !in buf && |buf| <= MaxLine;
      ReadsUpToShift(buf, incoming, k - 1, r);
      ReadsUpToNextLine(buf + incoming[0], incoming[1..], k - 1, r);
    }
  }

  /** A read that stops before appending anything is `read_line`'s result. */
  lemma ReadsNothingNextLine(buf: string, incoming: seq<string>, r: LineRead)
    requires ReadsUpTo(buf, incoming, 0, r)
    ensures r == NextLine(buf, incoming)
  {
    ReceivedNone(buf, incoming);
    assert incoming[0..] == incoming;
    match r.line
    case Some(l) =>
      FirstNewline(buf, l, r.rest);
      assert buf[..|l|] == l && buf[|l| + 1..] == r.rest;
    case None =>
  }

  /** What is left to read: the buffer and the chunks still to come. */
  function Pending(buf: string, incoming: seq<string>): nat {
    |buf| + |Concat(incoming)|
  }

  /** A line handed out is consumed: strictly less is left to read. */
  lemma NextLineConsumes(buf: string, incoming: seq<string>)
    requires NextLine(buf, incoming).line.Some?
    ensures Pending(NextLine(buf, incoming).rest, NextLine(buf, incoming).incoming) < Pending(buf, incoming)
  {
    var r := NextLine(buf, incoming);
    NextLineReads(buf, incoming);
    var k: nat :| ReadsUpTo(buf, incoming, k, r);
    ConcatSplit(incoming, k);
    assert |buf + Concat(incoming[..k])| == |r.line.value| + 1 + |r.rest|;
  }

  /** The table a session ends with: the commands of its lines applied in order. */
  function Session(table: map<ConnKey, string>, buf: string, incoming: seq<string>): map<ConnKey, string>
    decreases Pending(buf, incoming)
  {
    var r := NextLine(buf, incoming);
    if r.line.None? || r.line.value == "" then table
    else
      NextLineConsumes(buf, incoming);
      Session(Apply(table, ParseCommand(r.line.value)), r.rest, r.incoming)
  }

  /** `read_line` only consumes input: what it leaves unread is a suffix of what it had. */
  lemma {:induction false} NextLineSuffix(buf: string, incoming: seq<string>)
    ensures var r := NextLine(buf, incoming);
      |r.incoming| <= |incoming| && r.incoming == incoming[|incoming| - |r.incoming|..]
    decreases |incoming|
  {
    if '\n' in buf || |buf| > MaxLine || incoming == [] {
    } else if incoming[0] == "" {
      assert incoming[1..] == incoming[|incoming| - (|incoming| - 1)..];
    } else {
      NextLineSuffix(buf + incoming[0], incoming[1..]);
      var n := |NextLine(buf, incoming).incoming|;
      assert incoming[1..][|incoming| - 1 - n..] == incoming[|incoming| - n..];
    }
  }

  /**
   * The buffer and the unread input a session ends with: those of the read
   * that gave no line or an empty one. The session only consumes input.
   */
  function SessionEnd(buf: string, incoming: seq<string>): (e: (string, seq<string>))
    ensures |e.1| <= |incoming| && e.1 == incoming[|incoming| - |e.1|..]
    decreases Pending(buf, incoming)
  {
    var r := NextLine(buf, incoming);
    NextLineSuffix(buf, incoming);
    if r.line.None? || r.line.value == "" then (r.rest, r.incoming)
    else
      NextLineConsumes(buf, incoming);
      var e := SessionEnd(r.rest, r.incoming);
      assert r.incoming[|r.incoming| - |e.1|..] == incoming[|incoming| - |e.1|..];
      e
  }

  // ---------------------------------------------------------------------------
  // The registration channel: lookups across sessions

  /** `c.conn_users.get(key)` is truthy: present and not the empty string. */
  predicate Holds(table: map<ConnKey, string>, key: ConnKey) {
    key in table && table[key] != ""
  }

  /** `SocketDriver.lookup` over the sessions' tables, in session order. */
  function Registered(tables: seq<map<ConnKey, string>>, key: ConnKey): (r: Option<string>)
    ensures r.Some? ==> r.value != ""
    decreases |tables|
  {
    if tables == [] then None
    else if Holds(tables[0], key) then Some(tables[0][key])
    else Registered(tables[1..], key)
  }

  /**
   * The channel's answer is decided by the first session holding a
   * non-empty name for the key; when none does, it has no opinion.
   */
  lemma {:induction false} RegisteredFirst(tables: seq<map<ConnKey, string>>, key: ConnKey, i: nat)
    requires i <= |tables|
    requires forall j :: 0 <= j < i ==> !Holds(tables[j], key)
    ensures i == |tables| ==> Registered(tables, key) == None
    ensures i < |tables| && Holds(tables[i], key) ==> Registered(tables, key) == Some(tables[i][key])
    decreases i
  {
    if i > 0 {
      assert forall j :: 0 <= j < i - 1 ==> tables[1..][j] == tables[j + 1];
      RegisteredFirst(tables[1..], key, i - 1);
      assert i < |tables| ==> tables[1..][i - 1] == tables[i];
    }
  }

  /** Every answer comes from some session's table. */
  lemma {:induction false} RegisteredFrom(tables: seq<map<ConnKey, string>>, key: ConnKey)
    requires Registered(tables, key).Some?
    ensures exists i :: 0 <= i < |tables| && Holds(tables[i], key) && tables[i][key] == Registered(tables, key).value
    decreases |tables|
  {
    if !Holds(tables[0], key) {
      RegisteredFrom(tables[1..], key);
      var i :| 0 <= i < |tables[1..]| && Holds(tables[1..][i], key) && tables[1..][i][key] == Registered(tables, key).value;
      assert tables[1..][i] == tables[i + 1];
    }
  }

  /**
   * An `add` in one session is what the channel answers, provided no
   * earlier session holds a name for that key; a `remove` hands the key
   * to the sessions after it.
   */
  lemma AddThenRemove(tables: seq<map<ConnKey, string>>, i: nat, key: ConnKey, user: string)
    requires i < |tables| && user != ""
    requires forall j :: 0 <= j < i ==> !Holds(tables[j], key)
    ensures Registered(tables[i := Apply(tables[i], Add(key, user))], key) == Some(user)
    ensures Registered(tables[i := Apply(tables[i], Remove(key))], key) == Registered(tables[i + 1..], key)
  {
    var added := tables[i := Apply(tables[i], Add(key, user))];
    RegisteredFirst(added, key, i);
    var removed := tables[i := Apply(tables[i], Remove(key))];
    RegisteredSkip(removed, key, i + 1);
    assert removed[i + 1..] == tables[i + 1..];
  }

  /** Sessions that hold no name for the key are passed over. */
  lemma {:induction false} RegisteredSkip(tables: seq<map<ConnKey, string>>, key: ConnKey, i: nat)
    requires i <= |tables|
    requires forall j :: 0 <= j < i ==> !Holds(tables[j], key)
    ensures Registered(tables, key) == Registered(tables[i..], key)
    decreases i
  {
    if i > 0 {
      assert forall j :: 0 <= j < i - 1 ==> tables[1..][j] == tables[j + 1];
      RegisteredSkip(tables[1..], key, i - 1);
      assert tables[1..][i - 1..] == tables[i..];
    }
  }

  // ---------------------------------------------------------------------------
  // The objects

  /** `SocketDriverClient`: one peer session. */
  class Client {
    var connUsers: map<ConnKey, string>
    var buf: string
    var incoming: seq<string>

    constructor (incoming: seq<string>)
      ensures connUsers == map[] && buf == "" && this.incoming == incoming
    {
      connUsers := map[];
      buf := "";
      this.incoming := incoming;
    }

    /** `self.socket.recv(1024)` */
    method Recv() returns (r: string)
      modifies this`incoming
      ensures old(incoming) == [] ==> r == "" && incoming == []
      ensures old(incoming) != [] ==> r == old(incoming)[0] && incoming == old(incoming)[1..]
    {
      if incoming == [] {
        r := "";
      } else {
        r := incoming[0];
        incoming := incoming[1..];
      }
    }

    /** `read_line` */
    method ReadLine() returns (line: Option<string>)
      modifies this`buf, this`incoming
      ensures NextLine(old(buf), old(incoming)) == LineRead(line, buf, incoming)
    {
      while true
        invariant NextLine(buf, incoming) == NextLine(old(buf), old(incoming))
        decreases |incoming|
      {
        if '\n' in buf {
          var i := IndexOf(buf, '\n');
          line := Some(buf[..i]);
          buf := buf[i + 1..];
          return;
        }
        if |buf| > MaxLine {
          return None;
        }
        var r := Recv();
        if r == "" {
          return None;
        }
        buf := buf + r;
      }
    }

    /** One turn of the loop in `_run_thread`: read a line and carry out its command. */
    method Step() returns (more: bool)
      modifies this
      ensures var r := NextLine(old(buf), old(incoming));
        && buf == r.rest && incoming == r.incoming
        && more == (r.line.Some? && r.line.value != "")
        && connUsers == (if more then Apply(old(connUsers), ParseCommand(r.line.value)) else old(connUsers))
    {
      var l := ReadLine();
      if l.None? || l.value == "" {
        return false;
      }
      Execute(ParseCommand(l.value));
      return true;
    }

    /** What the command of a line does to the table: `add` sets the key, `remove` deletes it if present. */
    method Execute(cmd: Command)
      modifies this`connUsers
      ensures connUsers == Apply(old(connUsers), cmd)
    {
      match cmd
      case Add(key, user) =>
        connUsers := connUsers[key := user];
      case Remove(key) =>
        if key in connUsers {
          connUsers := connUsers - {key};
        }
      case Ignored =>
    }

    /** `_run_thread`: carry out commands until a blank line, an over-long line or the end of input. */
    method Run()
      modifies this
      ensures connUsers == Session(old(connUsers), old(buf), old(incoming))
      ensures (buf, incoming) == SessionEnd(old(buf), old(incoming))
    {
      while true
        invariant Session(connUsers, buf, incoming) == Session(old(connUsers), old(buf), old(incoming))
        invariant SessionEnd(buf, incoming) == SessionEnd(old(buf), old(incoming))
        decreases Pending(buf, incoming)
      {
        ghost var b, inc := buf, incoming;
        var more := Step();
        if !more {
          break;
        }
        NextLineConsumes(b, inc);
      }
    }
  }

  /** `SocketDriver`: the channel and its list of live sessions. */
  class Registry {
    var clients: seq<Client>

    /** Each session is in the list at most once. */
    ghost predicate Valid()
      reads this
    {
      forall i, j :: 0 <= i < j < |clients| ==> clients[i] != clients[j]
    }

    /** The sessions' tables, in list order. */
    function Tables(): (ts: seq<map<ConnKey, string>>)
      reads this, clients
      ensures |ts| == |clients|
      ensures forall i :: 0 <= i < |clients| ==> ts[i] == clients[i].connUsers
    {
      seq(|clients|, i reads this, clients requires 0 <= i < |clients| => clients[i].connUsers)
    }

    constructor ()
      ensures clients == [] && Valid()
    {
      clients := [];
    }

    /** `accept_connection`: a new session, with an empty table, joins the end of the list. */
    method Accept(incoming: seq<string>) returns (c: Client)
      requires Valid()
      modifies this
      ensures Valid() && fresh(c)
      ensures clients == old(clients) + [c]
      ensures c.connUsers == map[] && c.buf == "" && c.incoming == incoming
    {
      c := new Client(incoming);
      clients := clients + [c];
    }

    /** `SocketDriver.lookup` */
    method Lookup(key: ConnKey) returns (user: Option<string>)
      ensures user == Registered(Tables(), key)
    {
      var i := 0;
      while i < |clients|
        invariant i <= |clients|
        invariant Registered(Tables()[i..], key) == Registered(Tables(), key)
      {
        var c := clients[i];
        if key in c.connUsers && c.connUsers[key] != "" {
          return Some(c.connUsers[key]);
        }
        assert Tables()[i..][1..] == Tables()[i + 1..];
        i := i + 1;
      }
      return None;
    }

    /**
     * The `finally` block of `run_thread`: the session's table is emptied and
     * the session leaves the list; the other sessions' tables are untouched.
     */
    method Finish(c: Client)
      requires Valid()
      modifies this, c`connUsers
      ensures Valid()
      ensures c.connUsers == map[] && c !in clients
      ensures c.buf == old(c.buf) && c.incoming == old(c.incoming)
      ensures clients == Without(old(clients), c)
      ensures Tables() == Drop(old(Tables()), Position(old(clients), c))
    {
      var p := Position(clients, c);
      ghost var ts := Tables();
      ghost var cs := clients;
      c.connUsers := map[];
      if p < |clients| {
        clients := clients[..p] + clients[p + 1..];
        forall i | 0 <= i < |clients|
          ensures clients[i] != c && clients[i].connUsers == ts[if i < p then i else i + 1]
        {
          if i < p {
            assert clients[i] == cs[i];
          } else {
            assert clients[i] == cs[i + 1];
          }
        }
      } else {
        forall i | 0 <= i < |clients|
          ensures clients[i].connUsers == ts[i]
        {
        }
      }
    }
  }

  /** Index of the first occurrence of `x`, or `|s|`. */
  function Position<T(==)>(s: seq<T>, x: T): (p: nat)
    ensures p <= |s|
    ensures forall j :: 0 <= j < p ==> s[j] != x
    ensures p < |s| ==> s[p] == x
    decreases |s|
  {
    if s == [] || s[0] == x then 0 else 1 + Position(s[1..], x)
  }

  /** `s` without its element at `p`; `s` itself when there is none. */
  function Drop<T>(s: seq<T>, p: nat): (r: seq<T>)
    ensures p < |s| ==> |r| == |s| - 1 && forall i :: 0 <= i < |r| ==> r[i] == s[if i < p then i else i + 1]
    ensures p >= |s| ==> r == s
  {
    if p < |s| then s[..p] + s[p + 1..] else s
  }

  /** `list.remove(x)` with its ValueError ignored: the first occurrence of `x` goes. */
  function Without<T(==)>(s: seq<T>, x: T): (r: seq<T>)
    ensures x in s ==> |r| == |s| - 1 && multiset(r) == multiset(s) - multiset{x}
    ensures x !in s ==> r == s
    ensures x in s ==> exists p :: 0 <= p < |s| && s[p] == x && x !in s[..p] && r == s[..p] + s[p + 1..]
  {
    var p := Position(s, x);
    if p < |s| then
      assert s == s[..p] + [x] + s[p + 1..];
      Drop(s, p)
    else s
  }

  /**
   * A session that leaves the list holding no name for the key changes no
   * lookup of that key; one that held the first name hands the key to the
   * sessions after it.
   */
  lemma {:induction false} RegisteredDrop(tables: seq<map<ConnKey, string>>, p: nat, key: ConnKey)
    requires p < |tables|
    ensures !Holds(tables[p], key) ==> Registered(Drop(tables, p), key) == Registered(tables, key)
    ensures (forall j :: 0 <= j < p ==> !Holds(tables[j], key)) ==>
      Registered(Drop(tables, p), key) == Registered(tables[p + 1..], key)
    decreases p
  {
    var d := Drop(tables, p);
    if p == 0 {
      assert d == tables[1..];
    } else {
      assert d[0] == tables[0];
      assert d[1..] == Drop(tables[1..], p - 1);
      RegisteredDrop(tables[1..], p - 1, key);
      assert tables[1..][p - 1] == tables[p];
      assert tables[1..][p..] == tables[p + 1..];
      assert (forall j :: 0 <= j < p ==> !Holds(tables[j], key)) ==>
        (forall j :: 0 <= j < p - 1 ==> !Holds(tables[1..][j], key)) by {
        forall j | 0 <= j < p - 1
          ensures tables[1..][j] == tables[j + 1]
        {
        }
      }
    }
  }
}
