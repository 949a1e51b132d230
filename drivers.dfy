/**
 * The drivers and mappings a query can be run through: the fixed-answer
 * drivers, the kernel-table driver, the registration channel, and the
 * mappings that rename the user a driver reports (`Mapping`, `FileMapping`).
 */
module Drivers {
  import opened Wrappers
  import opened Text
  import opened Ident
  import ProcTcp
  import Registration

  /** The driver classes, each with what its `lookup` consults. */
  datatype Driver =
    | Silent                                          // `Driver`: never has an opinion
    | NoUser                                          // `NoUserDriver`
    | HiddenUser                                      // `HiddenUserDriver`
    | Fail                                            // `FailDriver`
    | Static(reply: string)                           // `StaticDriver(reply)`
    | Real                                            // `RealDriver`, reading the host
    | Socket(tables: seq<map<ConnKey, string>>)       // `SocketDriver`: its sessions' tables, in list order

  /**
   * What `RealDriver` reads from the host: the lines of `/proc/net/tcp`
   * (`None` when the file cannot be opened) and the password database.
   */
  datatype Host = Host(procTcp: Option<seq<string>>, passwd: map<int, string>)

  /** `d.lookup(localport, localip, remoteport, remoteip)` */
  function Consult(d: Driver, host: Host, key: ConnKey): (a: Answer)
    ensures a.Raised? ==> d.Real?
    ensures d.Fail? || d.NoUser? || d.HiddenUser? ==> a.Says? && IsError(a.text)
    ensures d.Socket? && a.Says? ==> a.text != ""
  {
    match d
    case Silent => NoOpinion
    case NoUser => Says("ERROR:NO-USER")
    case HiddenUser => Says("ERROR:HIDDEN-USER")
    case Fail => Says("ERROR:UNKNOWN-ERROR")
    case Static(reply) => Says(reply)
    case Real => ProcTcp.RealLookup(host.procTcp, host.passwd, key)
    case Socket(tables) =>
      match Registration.Registered(tables, key)
      case None => NoOpinion
      case Some(user) => Says(user)
  }

  /**
   * Every driver but the kernel-table driver and the registration channel
   * gives the same answer whatever the connection, and only `Driver` itself
   * has no opinion.
   */
  lemma FixedAnswers(d: Driver, host: Host, k1: ConnKey, k2: ConnKey)
    requires !d.Real? && !d.Socket?
    ensures Consult(d, host, k1) == Consult(d, host, k2)
    ensures Consult(d, host, k1).NoOpinion? <==> d.Silent?
    ensures d.Static? ==> Consult(d, host, k1) == Says(d.reply)
  {
  }

  /**
   * The registration channel answers with the name the first session holding
   * one gives, and has no opinion when no session holds a name for the key.
   */
  lemma SocketAnswers(tables: seq<map<ConnKey, string>>, host: Host, key: ConnKey, i: nat)
    requires i <= |tables|
    requires forall j :: 0 <= j < i ==> !Registration.Holds(tables[j], key)
    ensures i == |tables| ==> Consult(Socket(tables), host, key) == NoOpinion
    ensures i < |tables| && Registration.Holds(tables[i], key) ==>
      Consult(Socket(tables), host, key) == Says(tables[i][key])
  {
    Registration.RegisteredFirst(tables, key, i);
  }

  /** `d.lookup(...)` as the query loop calls it. */
  method Ask(d: Driver, host: Host, key: ConnKey) returns (a: Answer)
    ensures a == Consult(d, host, key)
  {
    match d
    case Real =>
      a := ProcTcp.Lookup(host.procTcp, host.passwd, key);
    case _ =>
      a := Consult(d, host, key);
  }

  // ---------------------------------------------------------------------------
  // Mappings

  /** `Mapping` (the identity) and `FileMapping` with the table its file gave. */
  datatype Mapper = Identity | File(table: map<string, string>)

  /** `m.lookup(user)`: `self.mapping.get(user, user)` for a file mapping. */
  function MapUser(m: Mapper, user: string): (r: string)
    ensures m.Identity? || user !in m.table ==> r == user
  {
    match m
    case Identity => user
    case File(table) => if user in table then table[user] else user
  }

  /**
   * What one line of a mapping file holds, once stripped: nothing (a blank
   * line), a `key:value` pair, or something `key,val=l.split(":")` rejects
   * with a ValueError.
   */
  datatype MapLine = Blank | Pair(key: string, value: string) | Malformed

  function ReadMapLine(line: string): (r: MapLine)
    ensures r.Pair? ==> ':' !in r.key && ':' !in r.value
    ensures r.Pair? ==> Strip(line) == r.key + ":" + r.value
  {
    var l := Strip(line);
    if l == [] then Blank
    else
      var parts := Split(l, ':');
      JoinSplit(l, ':');
      if |parts| == 2 then
        assert Join(parts, ':') == parts[0] + ":" + parts[1];
        Pair(parts[0], parts[1])
      else Malformed
  }

  /** A line that strips to `key:value`, with a single colon, reads as that pair. */
  lemma ReadMapLineOf(line: string, key: string, value: string)
    requires ':' !in key && ':' !in value && Strip(line) == key + ":" + value
    ensures ReadMapLine(line) == Pair(key, value)
  {
    SplitPair(key, ':', value);
    assert key + ":" + value == key + [':'] + value;
  }

  /** The table `FileMapping.__init__` builds from `lines`, starting from `table`; `None` when it raises. */
  function Load(table: map<string, string>, lines: seq<string>): Option<map<string, string>>
    decreases |lines|
  {
    if lines == [] then Some(table)
    else
      match ReadMapLine(lines[0])
      case Blank => Load(table, lines[1..])
      case Malformed => None
      case Pair(k, v) => Load(table[k := v], lines[1..])
  }

  /** `FileMapping.__init__`: the loop over the file's lines. */
  method LoadMapping(lines: seq<string>) returns (m: Option<Mapper>)
    ensures m.None? <==> Load(map[], lines).None?
    ensures m.Some? ==> m.value == File(Load(map[], lines).value)
  {
    var table := map[];
    var i := 0;
    while i < |lines|
      invariant i <= |lines|
      invariant Load(table, lines[i..]) == Load(map[], lines)
    {
      assert lines[i..][1..] == lines[i + 1..];
      var l := Strip(lines[i]);
      if l == [] {
        i := i + 1;
        continue;
      }
      var parts := Split(l, ':');
      if |parts| != 2 {
        return None;
      }
      table := table[parts[0] := parts[1]];
      i := i + 1;
    }
    assert lines[i..] == [];
    return Some(File(table));
  }

  /** The value the last line with key `u` gives it, if any line does. */
  function LastValue(lines: seq<string>, u: string): Option<string>
    decreases |lines|
  {
    if lines == [] then None
    else
      match LastValue(lines[1..], u)
      case Some(v) => Some(v)
      case None =>
        match ReadMapLine(lines[0])
        case Pair(k, v) => if k == u then Some(v) else None
        case _ => None
  }

  /** No non-blank line of `lines` is rejected. */
  predicate WellFormed(lines: seq<string>) {
    forall i :: 0 <= i < |lines| ==> !ReadMapLine(lines[i]).Malformed?
  }

  /** A mapping file loads exactly when each of its non-blank lines holds exactly one colon. */
  lemma {:induction false} LoadSucceeds(table: map<string, string>, lines: seq<string>)
    ensures Load(table, lines).Some? <==> WellFormed(lines)
    decreases |lines|
  {
    if lines != [] {
      var next := match ReadMapLine(lines[0]) case Pair(k, v) => table[k := v] case _ => table;
      LoadSucceeds(next, lines[1..]);
      assert WellFormed(lines) <==> !ReadMapLine(lines[0]).Malformed? && WellFormed(lines[1..]) by {
        forall i | 0 <= i < |lines[1..]|
          ensures lines[1..][i] == lines[i + 1]
        {
        }
      }
    }
  }

  /** `table.get(u)` */
  function Get(table: map<string, string>, u: string): (r: Option<string>)
    ensures r.Some? <==> u in table
  {
    if u in table then Some(table[u]) else None
  }

  /** The first of two optional values that is present. */
  function OrElse(first: Option<string>, second: Option<string>): (r: Option<string>)
    ensures r.None? <==> first.None? && second.None?
  {
    if first.Some? then first else second
  }

  /**
   * Each key is mapped to the value of the last line naming it, later lines
   * overriding earlier ones; a key no line names keeps what it had.
   */
  lemma {:induction false} LoadLastWins(table: map<string, string>, lines: seq<string>, u: string)
    requires Load(table, lines).Some?
    ensures Get(Load(table, lines).value, u) == OrElse(LastValue(lines, u), Get(table, u))
    decreases |lines|
  {
    if lines != [] {
      var rest := lines[1..];
      match ReadMapLine(lines[0])
      case Blank =>
        assert Load(table, lines) == Load(table, rest);
        assert LastValue(lines, u) == LastValue(rest, u);
        LoadLastWins(table, rest, u);
      case Pair(k, v) =>
        assert Load(table, lines) == Load(table[k := v], rest);
        assert LastValue(lines, u) == OrElse(LastValue(rest, u), if k == u then Some(v) else None);
        assert Get(table[k := v], u) == if k == u then Some(v) else Get(table, u);
        LoadLastWins(table[k := v], rest, u);
    }
  }

  /** `FileMapping(path).lookup(u)`: the last line naming `u` decides; with none, `u` is left alone. */
  lemma FileMapsByLastLine(lines: seq<string>, u: string)
    requires Load(map[], lines).Some?
    ensures LastValue(lines, u).Some? ==> MapUser(File(Load(map[], lines).value), u) == LastValue(lines, u).value
    ensures LastValue(lines, u).None? ==> MapUser(File(Load(map[], lines).value), u) == u
  {
    LoadLastWins(map[], lines, u);
    assert Get(map[], u) == None;
  }
}
