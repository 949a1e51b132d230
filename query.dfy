/**
 * One ident session (`input_thread`): read the query line, check it, run it
 * through the `drivers` list and send one reply, or none.
 *
 * The connection is modelled by the chunks `recv` returns, in order; an
 * empty chunk, or the end of the sequence, is the peer closing (or a receive
 * error other than an interrupted call). The addresses of the two ends are
 * given, as the socket layer reports them.
 */
module Query {
  import opened Wrappers
  import opened Text
  import opened Ident
  import opened Drivers
  import opened Chain

  /** The longest query buffer kept. */
  const MaxQuery: nat := 1024

  // ---------------------------------------------------------------------------
  // Reading the query

  /** The buffer once it holds `\r\n`, or `None` when the session closes first. */
  function FrameFrom(buf: string, chunks: seq<string>): Option<string>
    decreases |chunks|
  {
    if chunks == [] || chunks[0] == "" then None
    else
      var b := buf + chunks[0];
      if |b| > MaxQuery then None
      else if HasCrLf(b) then Some(b)
      else FrameFrom(b, chunks[1..])
  }

  /** The query buffer of a session. */
  function Frame(chunks: seq<string>): Option<string> {
    FrameFrom("", chunks)
  }

  /** The receive loop of `input_thread`. */
  method ReadQuery(chunks: seq<string>) returns (query: Option<string>)
    ensures query == Frame(chunks)
  {
    var buf := "";
    var i := 0;
    while true
      invariant i <= |chunks|
      invariant FrameFrom(buf, chunks[i..]) == Frame(chunks)
      decreases |chunks| - i
    {
      if i == |chunks| || chunks[i] == "" {
        assert i == |chunks| ==> chunks[i..] == [];
        return None;
      }
      assert chunks[i..][0] == chunks[i] && chunks[i..][1..] == chunks[i + 1..];
      var b := buf + chunks[i];
      assert FrameFrom(buf, chunks[i..])
        == if |b| > MaxQuery then None else if HasCrLf(b) then Some(b) else FrameFrom(b, chunks[i + 1..]);
      buf, i := b, i + 1;
      if |buf| > MaxQuery {
        return None;
      }
      if HasCrLf(buf) {
        return Some(buf);
      }
    }
  }

  /**
   * The buffer is complete after `k` chunks: none of them was empty, the
   * buffer first held `\r\n` after the `k`-th, and it never held more than
   * 1024 bytes until then.
   */
  ghost predicate CompleteAt(buf: string, chunks: seq<string>, k: nat) {
    && 1 <= k <= |chunks|
    && (forall j :: 0 <= j < k ==> chunks[j] != "")
    && (forall j :: 1 <= j < k ==> |Received(buf, chunks, j)| <= MaxQuery && !HasCrLf(Received(buf, chunks, j)))
    && |Received(buf, chunks, k)| <= MaxQuery && HasCrLf(Received(buf, chunks, k))
  }

  /** Completing after one chunk more. */
  lemma CompleteAtShift(buf: string, chunks: seq<string>, k: nat)
    requires 2 <= k <= |chunks|
    ensures CompleteAt(buf, chunks, k) <==>
      && chunks[0] != ""
      && |buf + chunks[0]| <= MaxQuery && !HasCrLf(buf + chunks[0])
      && CompleteAt(buf + chunks[0], chunks[1..], k - 1)
  {
    var b := buf + chunks[0];
    var tail := chunks[1..];
    forall j | 1 <= j <= k
      ensures Received(buf, chunks, j) == Received(b, tail, j - 1)
    {
      ReceivedShift(buf, chunks, j);
    }
    assert Received(b, tail, 0) == b;
    assert Received(buf, chunks, 1) == b;
    if CompleteAt(buf, chunks, k) {
      assert chunks[0] != "";
      assert forall j :: 0 <= j < k - 1 ==> tail[j] == chunks[j + 1];
      assert forall j :: 1 <= j < k - 1 ==> Received(b, tail, j) == Received(buf, chunks, j + 1);
      assert CompleteAt(b, tail, k - 1);
    }
    if chunks[0] != "" && |b| <= MaxQuery && !HasCrLf(b) && CompleteAt(b, tail, k - 1) {
      forall j | 0 <= j < k
        ensures chunks[j] != ""
      {
        if j > 0 {
          assert chunks[j] == tail[j - 1];
        }
      }
      forall j | 1 <= j < k
        ensures |Received(buf, chunks, j)| <= MaxQuery && !HasCrLf(Received(buf, chunks, j))
      {
        assert Received(buf, chunks, j) == Received(b, tail, j - 1);
      }
    }
  }

  /** Completing with the first chunk. */
  lemma CompleteAtFirst(buf: string, chunks: seq<string>)
    requires chunks != []
    ensures CompleteAt(buf, chunks, 1) <==>
      chunks[0] != "" && |buf + chunks[0]| <= MaxQuery && HasCrLf(buf + chunks[0])
  {
    ReceivedShift(buf, chunks, 1);
    assert Received(buf + chunks[0], chunks[1..], 0) == buf + chunks[0];
  }

  /**
   * The query buffer is what the chunks up to the point of completion add
   * up to; and when the chunks complete it at some point, it is read.
   */
  lemma {:induction false} FrameComplete(buf: string, chunks: seq<string>)
    ensures FrameFrom(buf, chunks).Some? ==>
      exists k :: CompleteAt(buf, chunks, k) && FrameFrom(buf, chunks).value == Received(buf, chunks, k)
    ensures (exists k :: CompleteAt(buf, chunks, k)) ==> FrameFrom(buf, chunks).Some?
    decreases |chunks|
  {
    if chunks != [] {
      var b := buf + chunks[0];
      CompleteAtFirst(buf, chunks);
      ReceivedShift(buf, chunks, 1);
      assert Received(b, chunks[1..], 0) == b;
      if chunks[0] != "" && |b| <= MaxQuery && !HasCrLf(b) {
        FrameComplete(b, chunks[1..]);
        if FrameFrom(buf, chunks).Some? {
          var k: nat :| CompleteAt(b, chunks[1..], k) && FrameFrom(b, chunks[1..]).value == Received(b, chunks[1..], k);
          CompleteAtShift(buf, chunks, k + 1);
          ReceivedShift(buf, chunks, k + 1);
        }
        if exists k :: CompleteAt(buf, chunks, k) {
          var k: nat :| CompleteAt(buf, chunks, k);
          CompleteAtShift(buf, chunks, k);
        }
      } else if exists k :: CompleteAt(buf, chunks, k) {
        var k: nat :| CompleteAt(buf, chunks, k);
        if k >= 2 {
          CompleteAtShift(buf, chunks, k);
        }
      }
    }
  }

  /** A query buffer that is read holds `\r\n` and at most 1024 bytes. */
  lemma FrameBounded(chunks: seq<string>)
    requires Frame(chunks).Some?
    ensures |Frame(chunks).value| <= MaxQuery && HasCrLf(Frame(chunks).value)
  {
    FrameComplete("", chunks);
  }

  /**
   * A second chunk that takes the buffer past 1024 bytes closes the session
   * without a reply, even when it brings the `\r\n`.
   */
  lemma TooLong(chunks: seq<string>)
    requires |chunks| >= 2 && chunks[0] != "" && chunks[1] != ""
    requires |chunks[0]| <= MaxQuery && !HasCrLf(chunks[0])
    requires |chunks[0] + chunks[1]| > MaxQuery
    ensures Frame(chunks) == None
  {
    var a, rest := chunks[0], chunks[1..];
    assert "" + a == a;
    assert Frame(chunks) == FrameFrom(a, rest);
    assert rest[0] == chunks[1] && rest != [];
    assert FrameFrom(a, rest) == None;
  }

  // ---------------------------------------------------------------------------
  // Checking the query

  /** What the query line leads to before any driver is asked. */
  datatype Check =
    | Ports(local: int, remote: int)  // both ports valid
    | Rejected(reply: string)         // the `INVALID-PORT` reply, without its line end
    | Dropped                         // not two comma-separated fields: closed without a reply

  /**
   * The text before the first `\r`, split on commas: two fields, each an
   * integer between 1 and 65535. A field `int()` cannot read is echoed as
   * received; a port out of range is echoed as the number read.
   */
  function Validate(buf: string): Check {
    CheckFields(Split(BeforeFirst(buf, '\r'), ','))
  }

  /** The comma-separated fields of the query line. */
  function CheckFields(fields: seq<string>): (c: Check)
    ensures c.Dropped? <==> |fields| != 2
  {
    if |fields| != 2 then Dropped else CheckPorts(fields[0], fields[1])
  }

  /** The two fields of the query line. */
  function CheckPorts(local: string, remote: string): (c: Check)
    ensures !c.Dropped?
  {
    match ParseInt(local)
    case None => Rejected(local + "," + remote + ":ERROR:INVALID-PORT")
    case Some(l) =>
      match ParseInt(remote)
      case None => Rejected(IntText(l) + "," + remote + ":ERROR:INVALID-PORT")
      case Some(r) =>
        if l < 1 || l > 65535 || r < 1 || r > 65535 then
          Rejected(IntText(l) + "," + IntText(r) + ":ERROR:INVALID-PORT")
        else Ports(l, r)
  }

  /** Two fields that read as numbers are judged by the numbers alone. */
  lemma CheckNumbers(a: string, b: string, l: int, r: int)
    requires ParseInt(a) == Some(l) && ParseInt(b) == Some(r)
    ensures 1 <= l <= 65535 && 1 <= r <= 65535 ==> CheckPorts(a, b) == Ports(l, r)
    ensures !(1 <= l <= 65535 && 1 <= r <= 65535) ==>
      CheckPorts(a, b) == Rejected(IntText(l) + "," + IntText(r) + ":ERROR:INVALID-PORT")
  {
  }

  /** Text made of spaces only. */
  predicate Spaces(pad: string) {
    forall k :: 0 <= k < |pad| ==> pad[k] == ' '
  }

  /** Where the fields of `local,remote\r…` sit. */
  lemma QueryFields(a: string, b: string, rest: string)
    requires ',' !in a && ',' !in b && '\r' !in a && '\r' !in b
    ensures Split(BeforeFirst(a + "," + b + "\r" + rest, '\r'), ',') == [a, b]
  {
    var q := a + "," + b;
    assert '\r' !in q;
    assert a + "," + b + "\r" + rest == q + ['\r'] + rest;
    BeforeFirstAt(q, '\r', rest);
    SplitPair(a, ',', b);
  }

  /** Both fields read as numbers. */
  lemma ReadPorts(l: int, r: int, p1: string, p2: string, rest: string)
    requires Spaces(p1) && Spaces(p2)
    ensures var a, b := p1 + IntText(l), p2 + IntText(r);
      Split(BeforeFirst(a + "," + b + "\r" + rest, '\r'), ',') == [a, b]
      && ParseInt(a) == Some(l) && ParseInt(b) == Some(r)
  {
    var a, b := p1 + IntText(l), p2 + IntText(r);
    IntTextPlain(l);
    IntTextPlain(r);
    assert ',' !in a && '\r' !in a by {
      assert forall k :: 0 <= k < |p1| ==> a[k] == p1[k];
      assert forall k :: 0 <= k < |IntText(l)| ==> a[|p1| + k] == IntText(l)[k];
    }
    assert ',' !in b && '\r' !in b by {
      assert forall k :: 0 <= k < |p2| ==> b[k] == p2[k];
      assert forall k :: 0 <= k < |IntText(r)| ==> b[|p2| + k] == IntText(r)[k];
    }
    QueryFields(a, b, rest);
    ParseIntPadded(l, p1);
    ParseIntPadded(r, p2);
  }

  /**
   * A query of two numbers, each possibly preceded by spaces, is accepted
   * when both are between 1 and 65535 and otherwise answered with
   * `INVALID-PORT` and the two numbers as read.
   */
  lemma NumericQuery(l: int, r: int, p1: string, p2: string, rest: string)
    requires Spaces(p1) && Spaces(p2)
    ensures 1 <= l <= 65535 && 1 <= r <= 65535 ==>
      Validate(p1 + IntText(l) + "," + (p2 + IntText(r)) + "\r" + rest) == Ports(l, r)
    ensures !(1 <= l <= 65535 && 1 <= r <= 65535) ==>
      Validate(p1 + IntText(l) + "," + (p2 + IntText(r)) + "\r" + rest)
        == Rejected(IntText(l) + "," + IntText(r) + ":ERROR:INVALID-PORT")
  {
    ReadPorts(l, r, p1, p2, rest);
    var a, b := p1 + IntText(l), p2 + IntText(r);
    assert Validate(a + "," + b + "\r" + rest) == CheckPorts(a, b);
    CheckNumbers(a, b, l, r);
  }

  /**
   * An unreadable local port echoes both fields exactly as received: `abc, 80`
   * is answered `abc, 80:ERROR:INVALID-PORT`, the remote field keeping its space.
   */
  lemma UnreadableLocal(a: string, b: string, rest: string)
    requires ',' !in a && ',' !in b && '\r' !in a && '\r' !in b
    requires ParseInt(a).None?
    ensures Validate(a + "," + b + "\r" + rest) == Rejected(a + "," + b + ":ERROR:INVALID-PORT")
  {
    QueryFields(a, b, rest);
    assert Validate(a + "," + b + "\r" + rest) == CheckPorts(a, b);
  }

  /**
   * An unreadable remote port echoes the local port as `int()` read it and
   * the remote field as received: `080, x` is answered `80, x:ERROR:INVALID-PORT`.
   */
  lemma UnreadableRemote(a: string, b: string, rest: string, l: int)
    requires ',' !in a && '\r' !in a && ',' !in b && '\r' !in b
    requires ParseInt(a) == Some(l) && ParseInt(b).None?
    ensures Validate(a + "," + b + "\r" + rest) == Rejected(IntText(l) + "," + b + ":ERROR:INVALID-PORT")
  {
    QueryFields(a, b, rest);
    assert Validate(a + "," + b + "\r" + rest) == CheckPorts(a, b);
  }

  /** A query line without a comma, or with more than one, is dropped without a reply. */
  lemma NotTwoFields(a: string, b: string, c: string, rest: string)
    requires ',' !in a && ',' !in b && '\r' !in a && '\r' !in b && '\r' !in c
    ensures Validate(a + "\r" + rest) == Dropped
    ensures Validate(a + "," + b + "," + c + "\r" + rest) == Dropped
  {
    BeforeFirstAt(a, '\r', rest);
    SplitWithout(a, ',');
    var q := a + "," + b + "," + c;
    assert '\r' !in q;
    assert q + "\r" + rest == q + ['\r'] + rest;
    BeforeFirstAt(q, '\r', rest);
    assert q == a + [','] + (b + [','] + c);
    SplitAfter(a, ',', b + [','] + c);
    SplitAfter(b, ',', c);
  }

  // ---------------------------------------------------------------------------
  // The reply

  /** The reply line for valid ports (without its line end), or `None` when a driver raised. */
  function ReplyLine(l: int, r: int, res: Resolution): (o: Option<string>)
    ensures o.None? <==> res.Aborted?
    ensures o.Some? ==> StartsWith(o.value, IntText(l) + "," + IntText(r) + ":")
  {
    var head := IntText(l) + "," + IntText(r) + ":";
    match res
    case Aborted => None
    case Undecided => Some(head + "ERROR:NO-USER")
    case Decided(t) => Some(if IsError(t) then head + t else head + "USERID:UNIX:" + t)
  }

  /**
   * A client reads the two ports back from any reply: the text before the
   * first colon is the two numbers, as `%i` wrote them, separated by a comma.
   */
  lemma ReplyPorts(l: int, r: int, res: Resolution)
    requires !res.Aborted?
    ensures var line := ReplyLine(l, r, res).value;
      Split(BeforeFirst(line, ':'), ',') == [IntText(l), IntText(r)]
      && ParseInt(IntText(l)) == Some(l) && ParseInt(IntText(r)) == Some(r)
  {
    var line := ReplyLine(l, r, res).value;
    var q := IntText(l) + "," + IntText(r);
    IntTextPlain(l);
    IntTextPlain(r);
    assert ':' !in q by {
      assert forall k :: 0 <= k < |IntText(l)| ==> q[k] == IntText(l)[k];
      assert forall k :: 0 <= k < |IntText(r)| ==> q[|IntText(l)| + 1 + k] == IntText(r)[k];
    }
    assert line == q + [':'] + line[|q| + 1..];
    BeforeFirstAt(q, ':', line[|q| + 1..]);
    SplitPair(IntText(l), ',', IntText(r));
    ParseIntText(l);
    ParseIntText(r);
  }

  /** What is sent once the query line has been checked. */
  function Respond(check: Check, localIp: string, remoteIp: string, entries: seq<Entry>, host: Host): (o: Option<string>)
    ensures check.Dropped? ==> o.None?
    ensures check.Rejected? ==> o == Some(check.reply + "\r\n")
  {
    match check
    case Dropped => None
    case Rejected(t) => Some(t + "\r\n")
    case Ports(l, r) =>
      match ReplyLine(l, r, Resolve(entries, host, ConnKey(l, localIp, r, remoteIp)))
      case None => None
      case Some(t) => Some(t + "\r\n")
  }

  /** Everything sent on one ident connection: one reply line, or nothing. */
  function Session(chunks: seq<string>, localIp: string, remoteIp: string, entries: seq<Entry>, host: Host): (o: Option<string>)
    ensures Frame(chunks).None? ==> o.None?
  {
    match Frame(chunks)
    case None => None
    case Some(buf) => Respond(Validate(buf), localIp, remoteIp, entries, host)
  }

  /** `input_thread`, from the first `recv` to the reply. */
  method InputThread(chunks: seq<string>, localIp: string, remoteIp: string, entries: seq<Entry>, host: Host)
    returns (sent: Option<string>)
    ensures sent == Session(chunks, localIp, remoteIp, entries, host)
  {
    var buf := ReadQuery(chunks);
    if buf.None? {
      return None;
    }
    var check := Validate(buf.value);
    match check {
      case Dropped =>
        return None;
      case Rejected(t) =>
        return Some(t + "\r\n");
      case Ports(l, r) =>
        var res := RunDrivers(entries, host, ConnKey(l, localIp, r, remoteIp));
        var reply := ReplyLine(l, r, res);
        if reply.None? {
          return None;
        }
        return Some(reply.value + "\r\n");
    }
  }

  /**
   * A valid query no driver in the list has an opinion on is answered
   * `ERROR:NO-USER`; with the list as configured this cannot happen.
   */
  lemma NoDriverAnswers(chunks: seq<string>, localIp: string, remoteIp: string, entries: seq<Entry>, host: Host, l: int, r: int)
    requires Frame(chunks).Some? && Validate(Frame(chunks).value) == Ports(l, r)
    requires AllSilent(entries, host, ConnKey(l, localIp, r, remoteIp))
    ensures Session(chunks, localIp, remoteIp, entries, host)
      == Some(IntText(l) + "," + IntText(r) + ":" + "ERROR:NO-USER" + "\r\n")
  {
    assert Session(chunks, localIp, remoteIp, entries, host) == Respond(Ports(l, r), localIp, remoteIp, entries, host);
    NoAnswer(entries, host, ConnKey(l, localIp, r, remoteIp));
  }

  /**
   * With the list as configured, a valid query is answered unless a driver
   * raised, and a query no driver has an opinion on is answered
   * `ERROR:UNKNOWN-ERROR`.
   */
  lemma ConfiguredSession(chunks: seq<string>, localIp: string, remoteIp: string, entries: seq<Entry>, host: Host, l: int, r: int)
    requires Frame(chunks).Some? && Validate(Frame(chunks).value) == Ports(l, r)
    ensures var key := ConnKey(l, localIp, r, remoteIp);
      && (Session(chunks, localIp, remoteIp, Configured(entries), host).None? <==>
          Resolve(Configured(entries), host, key).Aborted?)
      && (AllSilent(entries, host, key) ==>
          Session(chunks, localIp, remoteIp, Configured(entries), host)
            == Some(IntText(l) + "," + IntText(r) + ":" + "ERROR:UNKNOWN-ERROR" + "\r\n"))
  {
    assert Session(chunks, localIp, remoteIp, Configured(entries), host)
      == Respond(Ports(l, r), localIp, remoteIp, Configured(entries), host);
    ConfiguredRespond(localIp, remoteIp, entries, host, l, r);
  }

  /** `ConfiguredSession` for a query already checked. */
  lemma ConfiguredRespond(localIp: string, remoteIp: string, entries: seq<Entry>, host: Host, l: int, r: int)
    ensures var key := ConnKey(l, localIp, r, remoteIp);
      && (Respond(Ports(l, r), localIp, remoteIp, Configured(entries), host).None? <==>
          Resolve(Configured(entries), host, key).Aborted?)
      && (AllSilent(entries, host, key) ==>
          Respond(Ports(l, r), localIp, remoteIp, Configured(entries), host)
            == Some(IntText(l) + "," + IntText(r) + ":" + "ERROR:UNKNOWN-ERROR" + "\r\n"))
  {
    ConfiguredAlwaysDecides(entries, host, ConnKey(l, localIp, r, remoteIp));
    assert IsError("ERROR:UNKNOWN-ERROR");
  }

  /**
   * The first driver with an opinion writes the reply: a name, renamed by
   * the last mapping before that driver, becomes a `USERID` reply, and a
   * result that starts with `ERROR:` after mapping becomes an error reply.
   */
  lemma FirstDriverReplies(chunks: seq<string>, localIp: string, remoteIp: string, entries: seq<Entry>, host: Host,
                           l: int, r: int, i: nat)
    requires Frame(chunks).Some? && Validate(Frame(chunks).value) == Ports(l, r)
    requires i < |entries| && entries[i].DriverEntry?
    requires AllSilent(entries[..i], host, ConnKey(l, localIp, r, remoteIp))
    requires Consult(entries[i].driver, host, ConnKey(l, localIp, r, remoteIp)).Says?
    ensures var u := Settle(LastMapper(entries[..i]), Consult(entries[i].driver, host, ConnKey(l, localIp, r, remoteIp)).text);
      && (IsError(u) ==>
          Session(chunks, localIp, remoteIp, entries, host) == Some(IntText(l) + "," + IntText(r) + ":" + u + "\r\n"))
      && (!IsError(u) ==>
          Session(chunks, localIp, remoteIp, entries, host)
            == Some(IntText(l) + "," + IntText(r) + ":" + "USERID:UNIX:" + u + "\r\n"))
  {
    assert Session(chunks, localIp, remoteIp, entries, host) == Respond(Ports(l, r), localIp, remoteIp, entries, host);
    FirstAnswerDecides(entries, host, ConnKey(l, localIp, r, remoteIp), i);
  }
}
