/**
 * The `drivers` list a query is run through: drivers and mappings in the
 * order they were configured. The drivers are asked in turn until one has an
 * opinion; a mapping renames the user reported by the drivers after it, up to
 * the next mapping.
 */
module Chain {
  import opened Wrappers
  import opened Text
  import opened Ident
  import opened Drivers

  /** An element of the `drivers` list. */
  datatype Entry = DriverEntry(driver: Driver) | MappingEntry(mapper: Mapper)

  /** How the loop over the list ends. */
  datatype Resolution =
    | Decided(result: string)  // the first answer, after mapping: a user name or an `ERROR:` code
    | Undecided                // every driver returned `None`
    | Aborted                  // a driver's `lookup` raised, and the query goes unanswered

  /** `if mapping and not r.startswith("ERROR:"): r = mapping.lookup(r)`: error codes are never renamed. */
  function Settle(mapping: Option<Mapper>, r: string): (s: string)
    ensures IsError(r) || mapping.None? ==> s == r
  {
    if mapping.Some? && !IsError(r) then MapUser(mapping.value, r) else r
  }

  /** The loop over the list from some point on, with `mapping` the mapping in force there. */
  function ResolveFrom(entries: seq<Entry>, mapping: Option<Mapper>, host: Host, key: ConnKey): Resolution
    decreases |entries|
  {
    if entries == [] then Undecided
    else
      match entries[0]
      case MappingEntry(m) => ResolveFrom(entries[1..], Some(m), host, key)
      case DriverEntry(d) =>
        match Consult(d, host, key)
        case NoOpinion => ResolveFrom(entries[1..], mapping, host, key)
        case Raised => Aborted
        case Says(r) => Decided(Settle(mapping, r))
  }

  /** The loop over the whole list: no mapping is in force at its start. */
  function Resolve(entries: seq<Entry>, host: Host, key: ConnKey): Resolution {
    ResolveFrom(entries, None, host, key)
  }

  /** The loop `for d in drivers` of `input_thread`. */
  method RunDrivers(entries: seq<Entry>, host: Host, key: ConnKey) returns (res: Resolution)
    ensures res == Resolve(entries, host, key)
  {
    var mapping: Option<Mapper> := None;
    var i := 0;
    while i < |entries|
      invariant i <= |entries|
      invariant ResolveFrom(entries[i..], mapping, host, key) == Resolve(entries, host, key)
    {
      assert entries[i..][1..] == entries[i + 1..];
      match entries[i] {
        case MappingEntry(m) =>
          mapping := Some(m);
        case DriverEntry(d) =>
          var r := Ask(d, host, key);
          match r {
            case NoOpinion =>
            case Raised =>
              return Aborted;
            case Says(t) =>
              return Decided(Settle(mapping, t));
          }
      }
      i := i + 1;
    }
    return Undecided;
  }

  /** The last mapping in `entries`, if there is one. */
  function LastMapper(entries: seq<Entry>): (m: Option<Mapper>)
    ensures m.Some? ==> exists j :: 0 <= j < |entries| && entries[j] == MappingEntry(m.value)
    decreases |entries|
  {
    if entries == [] then None
    else if entries[|entries| - 1].MappingEntry? then Some(entries[|entries| - 1].mapper)
    else LastMapper(entries[..|entries| - 1])
  }

  /** The mapping in force after `prefix`, when `mapping` was in force before it. */
  function MappingAfter(mapping: Option<Mapper>, prefix: seq<Entry>): Option<Mapper> {
    if LastMapper(prefix).Some? then LastMapper(prefix) else mapping
  }

  /** Every driver in `entries` returns `None` for the key. */
  predicate AllSilent(entries: seq<Entry>, host: Host, key: ConnKey) {
    forall j :: 0 <= j < |entries| && entries[j].DriverEntry? ==> Consult(entries[j].driver, host, key).NoOpinion?
  }

  /** Walking past drivers with no opinion only picks up the mappings on the way. */
  lemma {:induction false} SkipSilent(entries: seq<Entry>, mapping: Option<Mapper>, host: Host, key: ConnKey, i: nat)
    requires i <= |entries|
    requires AllSilent(entries[..i], host, key)
    ensures ResolveFrom(entries, mapping, host, key) == ResolveFrom(entries[i..], MappingAfter(mapping, entries[..i]), host, key)
    decreases i
  {
    if i > 0 {
      var k := i - 1;
      SkipSilent(entries, mapping, host, key, k);
      assert entries[..i][..k] == entries[..k];
      assert entries[..i][k] == entries[k];
      assert AllSilent(entries[..k], host, key) by {
        forall j | 0 <= j < k
          ensures entries[..k][j] == entries[..i][j]
        {
        }
      }
      var before := MappingAfter(mapping, entries[..k]);
      assert entries[k..][0] == entries[k] && entries[k..][1..] == entries[i..];
      if entries[k].MappingEntry? {
        assert LastMapper(entries[..i]) == Some(entries[k].mapper);
      } else {
        assert LastMapper(entries[..i]) == LastMapper(entries[..k]);
        assert Consult(entries[k].driver, host, key).NoOpinion?;
      }
    }
  }

  /**
   * The first driver with an opinion decides: its answer, renamed by the last
   * mapping before it unless it is an error code, or no reply at all if it
   * raised. Neither the drivers after it nor any mapping after it is
   * consulted.
   */
  lemma FirstAnswerDecides(entries: seq<Entry>, host: Host, key: ConnKey, i: nat)
    requires i < |entries| && entries[i].DriverEntry?
    requires AllSilent(entries[..i], host, key)
    requires !Consult(entries[i].driver, host, key).NoOpinion?
    ensures Consult(entries[i].driver, host, key).Raised? ==> Resolve(entries, host, key) == Aborted
    ensures Consult(entries[i].driver, host, key).Says? ==>
      Resolve(entries, host, key) == Decided(Settle(LastMapper(entries[..i]), Consult(entries[i].driver, host, key).text))
  {
    SkipSilent(entries, None, host, key, i);
    assert entries[i..][0] == entries[i];
  }

  /** With no driver holding an opinion, the loop ends undecided, whatever the mappings. */
  lemma NoAnswer(entries: seq<Entry>, host: Host, key: ConnKey)
    requires AllSilent(entries, host, key)
    ensures Resolve(entries, host, key) == Undecided
  {
    SkipSilent(entries, None, host, key, |entries|);
    assert entries[..|entries|] == entries;
  }

  /** Where the search stops: at the first driver with an opinion, or at the end of the list. */
  lemma FirstLoud(entries: seq<Entry>, host: Host, key: ConnKey) returns (i: nat)
    ensures i <= |entries| && AllSilent(entries[..i], host, key)
    ensures i < |entries| ==> entries[i].DriverEntry? && !Consult(entries[i].driver, host, key).NoOpinion?
  {
    i := 0;
    while i < |entries| && !(entries[i].DriverEntry? && !Consult(entries[i].driver, host, key).NoOpinion?)
      invariant i <= |entries|
      invariant forall j :: 0 <= j < i && entries[j].DriverEntry? ==> Consult(entries[j].driver, host, key).NoOpinion?
    {
      i := i + 1;
    }
    forall j | 0 <= j < i
      ensures entries[..i][j] == entries[j]
    {
    }
  }

  /**
   * Conversely, every outcome of the loop is one of those: undecided exactly
   * when every driver is silent, and otherwise decided by the first driver
   * with an opinion under the last mapping before it.
   */
  lemma Outcomes(entries: seq<Entry>, host: Host, key: ConnKey)
    ensures Resolve(entries, host, key).Undecided? <==> AllSilent(entries, host, key)
    ensures Resolve(entries, host, key).Decided? ==>
      exists i :: 0 <= i < |entries| && entries[i].DriverEntry? && AllSilent(entries[..i], host, key)
        && Consult(entries[i].driver, host, key).Says?
        && Resolve(entries, host, key).result == Settle(LastMapper(entries[..i]), Consult(entries[i].driver, host, key).text)
  {
    var i := FirstLoud(entries, host, key);
    if i == |entries| {
      assert entries[..i] == entries;
      NoAnswer(entries, host, key);
    } else {
      FirstAnswerDecides(entries, host, key, i);
    }
  }

  /** The list as configured: the drivers and mappings the options name, then `FailDriver`. */
  function Configured(entries: seq<Entry>): (c: seq<Entry>)
    ensures |c| == |entries| + 1 && c[..|entries|] == entries
  {
    entries + [DriverEntry(Fail)]
  }

  /**
   * Because `FailDriver` closes the configured list, the loop is never left
   * undecided; a query no configured driver answers gets `ERROR:UNKNOWN-ERROR`,
   * which no mapping renames.
   */
  lemma ConfiguredAlwaysDecides(entries: seq<Entry>, host: Host, key: ConnKey)
    ensures !Resolve(Configured(entries), host, key).Undecided?
    ensures AllSilent(entries, host, key) ==> Resolve(Configured(entries), host, key) == Decided("ERROR:UNKNOWN-ERROR")
  {
    var c := Configured(entries);
    var n := |entries|;
    assert c[n] == DriverEntry(Fail);
    Outcomes(c, host, key);
    if AllSilent(entries, host, key) {
      assert c[..n] == entries;
      FirstAnswerDecides(c, host, key, n);
      assert IsError("ERROR:UNKNOWN-ERROR");
    }
  }
}
