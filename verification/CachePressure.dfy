/** Reserve admission and deterministic eviction (crates/reflink-forest-cache). */
module CachePressure {
  import opened Bytes
  import opened Core

  // ---------- Admission ----------

  datatype ReservePolicy = ReservePolicy(hostReserve: u64, guestReserve: u64)

  datatype Capacity = Capacity(host: u64, guest: u64)

  datatype Violation = Violation(available: u64, projected: u64, reserve: u64, availableAfter: u64, shortfall: u64)

  datatype AdmissionError =
    | HostReserve(host: Violation)
    | GuestReserve(guest: Violation)
    | HostAndGuestReserve(host: Violation, guest: Violation)

  function Minus(a: u64, b: u64): u64 { if b <= a then a - b else 0 }

  function ReserveViolation(available: u64, projected: u64, reserve: u64): Option<Violation> {
    var availableAfter := Minus(available, projected);
    if availableAfter >= reserve then None
    else Some(Violation(available, projected, reserve, availableAfter, reserve - availableAfter))
  }

  function Admit(policy: ReservePolicy, capacity: Capacity, projected: u64): Result<(), AdmissionError> {
    match (ReserveViolation(capacity.host, projected, policy.hostReserve),
           ReserveViolation(capacity.guest, projected, policy.guestReserve))
    case (None, None) => Ok(())
    case (Some(host), None) => Err(HostReserve(host))
    case (None, Some(guest)) => Err(GuestReserve(guest))
    case (Some(host), Some(guest)) => Err(HostAndGuestReserve(host, guest))
  }

  function RequiredReclaim(error: AdmissionError): u64 {
    match error
    case HostReserve(host) => host.shortfall
    case GuestReserve(guest) => guest.shortfall
    case HostAndGuestReserve(host, guest) => if host.shortfall > guest.shortfall then host.shortfall else guest.shortfall
  }

  // The allocation leaves the reserve untouched.
  predicate Keeps(available: u64, projected: u64, reserve: u64) { projected + reserve <= available }

  // Admission keeps both reserves except in one family: a zero reserve lets an allocation
  // larger than what is available through.
  lemma AdmittedExactlyWhen(policy: ReservePolicy, c: Capacity, projected: u64)
    ensures Admit(policy, c, projected).Ok? <==>
            && (Keeps(c.host, projected, policy.hostReserve) || (policy.hostReserve == 0 && c.host < projected))
            && (Keeps(c.guest, projected, policy.guestReserve) || (policy.guestReserve == 0 && c.guest < projected))
  {
  }

  // A refusal names the reserves that would be broken, and by how much each.
  lemma RefusalNamesReserves(policy: ReservePolicy, c: Capacity, projected: u64)
    requires Admit(policy, c, projected).Err?
    ensures var error := Admit(policy, c, projected).error;
            var host := policy.hostReserve > 0 && !Keeps(c.host, projected, policy.hostReserve);
            var guest := policy.guestReserve > 0 && !Keeps(c.guest, projected, policy.guestReserve);
            && (error.HostReserve? <==> host && !guest) && (error.GuestReserve? <==> guest && !host)
            && (error.HostAndGuestReserve? <==> host && guest)
            && (host ==> Describes(error.host, c.host, projected, policy.hostReserve))
            && (guest ==> Describes(error.guest, c.guest, projected, policy.guestReserve))
  {
  }

  predicate Describes(v: Violation, available: u64, projected: u64, reserve: u64) {
    && v.available == available && v.projected == projected && v.reserve == reserve
    && v.availableAfter + v.shortfall == reserve && v.availableAfter == if projected <= available then available - projected else 0
  }

  // With non-zero reserves admission is exactly the promised condition.
  lemma AdmittedKeepsReserves(policy: ReservePolicy, c: Capacity, projected: u64)
    requires policy.hostReserve > 0 && policy.guestReserve > 0
    ensures Admit(policy, c, projected).Ok? <==>
            Keeps(c.host, projected, policy.hostReserve) && Keeps(c.guest, projected, policy.guestReserve)
  {
  }

  // What must be freed in a domain that refuses.
  function Needed(available: u64, projected: u64, reserve: u64): nat {
    if ReserveViolation(available, projected, reserve).None? then 0 else projected + reserve - available
  }

  function Freed(c: Capacity, freed: u64): Capacity
    requires c.host + freed <= U64_MAX && c.guest + freed <= U64_MAX
  {
    Capacity(c.host + freed, c.guest + freed)
  }

  lemma FreeingAdmitsExactlyWhen(policy: ReservePolicy, c: Capacity, projected: u64, freed: u64)
    requires c.host + freed <= U64_MAX && c.guest + freed <= U64_MAX
    ensures Admit(policy, Freed(c, freed), projected).Ok? <==>
            && Needed(c.host, projected, policy.hostReserve) <= freed
            && Needed(c.guest, projected, policy.guestReserve) <= freed
  {
  }

  // No amount below the reported one is ever enough.
  lemma LessThanRequiredIsRefused(policy: ReservePolicy, c: Capacity, projected: u64, freed: u64)
    requires Admit(policy, c, projected).Err? && c.host + freed <= U64_MAX && c.guest + freed <= U64_MAX
    requires freed < RequiredReclaim(Admit(policy, c, projected).error)
    ensures Admit(policy, Freed(c, freed), projected).Err?
  {
    FreeingAdmitsExactlyWhen(policy, c, projected, freed);
  }

  // The reported amount is enough exactly when the allocation fits in each refusing domain as it
  // is, or the other domain's shortfall covers what it lacks as well.
  lemma RequiredReclaimSuffices(policy: ReservePolicy, c: Capacity, projected: u64)
    requires Admit(policy, c, projected).Err?
    requires var required := RequiredReclaim(Admit(policy, c, projected).error);
             c.host + required <= U64_MAX && c.guest + required <= U64_MAX
    ensures var error := Admit(policy, c, projected).error;
            Admit(policy, Freed(c, RequiredReclaim(error)), projected).Ok? <==>
            match error
            case HostReserve(_) => projected <= c.host
            case GuestReserve(_) => projected <= c.guest
            case HostAndGuestReserve(host, guest) =>
              && (projected <= c.host || projected - c.host + policy.hostReserve <= guest.shortfall)
              && (projected <= c.guest || projected - c.guest + policy.guestReserve <= host.shortfall)
  {
    FreeingAdmitsExactlyWhen(policy, c, projected, RequiredReclaim(Admit(policy, c, projected).error));
  }

  // An allocation of 50 with 10 available needs 140 freed to keep a reserve of 100; the report says 100.
  lemma RequiredReclaimFallsShort()
    ensures var policy, c := ReservePolicy(100, 100), Capacity(10, 1000);
            && Admit(policy, c, 50).Err? && RequiredReclaim(Admit(policy, c, 50).error) == 100
            && Admit(policy, Freed(c, 100), 50).Err?
            && Admit(policy, Freed(c, 139), 50).Err? && Admit(policy, Freed(c, 140), 50).Ok?
  {
  }

  // ---------- Eviction ----------

  // Logical lengths of the canonical leaves.
  type Entries = map<ContentId, u64>

  function Total(entries: Entries, ids: seq<ContentId>): nat
    requires forall i :: 0 <= i < |ids| ==> ids[i] in entries
  {
    if ids == [] then 0 else Total(entries, ids[..|ids| - 1]) + entries[ids[|ids| - 1]]
  }

  // All leaves in the order they would be evicted.
  ghost predicate Listing(entries: Entries, ids: seq<ContentId>) {
    AscendingKeys(ids) && forall id :: id in ids <==> id in entries
  }

  // `k` is the number of leaves that must go: the shortest prefix that reaches the target.
  ghost predicate Shortest(entries: Entries, ids: seq<ContentId>, target: u64, k: nat)
    requires Listing(entries, ids)
  {
    && k <= |ids|
    && (Total(entries, ids) - Total(entries, ids[..k]) <= target || k == |ids|)
    && forall j :: 0 <= j < k ==> Total(entries, ids) - Total(entries, ids[..j]) > target
  }

  datatype Usage = Usage(entries: nat, bytes: nat)

  datatype Eviction = Eviction(before: Usage, after: Usage, evictedEntries: nat, evictedBytes: nat)

  lemma {:induction false} TotalSplits(entries: Entries, ids: seq<ContentId>, k: nat)
    requires k <= |ids| && forall i :: 0 <= i < |ids| ==> ids[i] in entries
    ensures Total(entries, ids) == Total(entries, ids[..k]) + Total(entries, ids[k..])
  {
    var n := |ids|;
    if k == n {
      assert ids[..k] == ids && ids[k..] == [];
    } else {
      TotalSplits(entries, ids[..n - 1], k);
      assert ids[..n - 1][..k] == ids[..k] && ids[..n - 1][k..] == ids[k..n - 1];
      assert ids[k..][..|ids[k..]| - 1] == ids[k..n - 1];
    }
  }

  // Two ascending lists of the same IDs are the same list.
  lemma {:induction false} ListingIsUnique(a: seq<seq<byte>>, b: seq<seq<byte>>)
    requires AscendingKeys(a) && AscendingKeys(b) && forall id :: id in a <==> id in b
    ensures a == b
  {
    hide Less;
    EmptyTogether(a, b);
    if a != [] {
      LeastFirst(a, b);
      LeastFirst(b, a);
      SameFirst(a, b);
      assert a[1..] == b[1..] by {
        RestHas(a, b);
        ListingIsUnique(a[1..], b[1..]);
      }
      assert a == [a[0]] + a[1..] && b == [b[0]] + b[1..];
    }
  }

  lemma EmptyTogether(a: seq<seq<byte>>, b: seq<seq<byte>>)
    requires forall id :: id in a <==> id in b
    ensures a == [] <==> b == []
  {
    if a != [] {
      assert a[0] in b;
    }
    if b != [] {
      assert b[0] in a;
    }
  }

  lemma LeastFirst(a: seq<seq<byte>>, b: seq<seq<byte>>)
    requires a != [] && b != [] && AscendingKeys(a) && forall id :: id in a <==> id in b
    ensures a[0] == b[0] || Less(a[0], b[0])
  {
    hide Less;
    assert b[0] in a;
  }

  lemma SameFirst(a: seq<seq<byte>>, b: seq<seq<byte>>)
    requires a != [] && b != [] && (a[0] == b[0] || Less(a[0], b[0])) && (a[0] == b[0] || Less(b[0], a[0]))
    ensures a[0] == b[0]
  {
    if Less(a[0], b[0]) {
      LessAsymmetric(a[0], b[0]);
    }
  }

  lemma RestHas(a: seq<seq<byte>>, b: seq<seq<byte>>)
    requires a != [] && b != [] && a[0] == b[0] && AscendingKeys(a) && AscendingKeys(b) && forall id :: id in a <==> id in b
    ensures forall id :: id in a[1..] <==> id in b[1..]
  {
    hide Less;
    LessIrreflexive(a[0]);
    assert forall id :: id in a[1..] <==> id in a && id != a[0];
    assert forall id :: id in b[1..] <==> id in b && id != b[0];
  }

  datatype CacheError = AccountingOverflow

  class Cache {
    var entries: Entries

    // Every leaf in eviction order, and what they add up to.
    method ScanFanout() returns (ids: seq<ContentId>, usage: Result<Usage, CacheError>)
      ensures Listing(entries, ids)
      ensures usage == if Total(entries, ids) <= U64_MAX then Ok(Usage(|ids|, Total(entries, ids))) else Err(AccountingOverflow)
    {
      hide Less;
      var sorted := SortedKeys(entries.Keys);
      forall i | 0 <= i < |sorted|
        ensures |sorted[i]| == 32
      {
        assert sorted[i] in entries.Keys;
      }
      ids := sorted;
      var bytes := 0;
      for i := 0 to |ids|
        invariant bytes == Total(entries, ids[..i])
      {
        assert ids[..i + 1][..i] == ids[..i];
        bytes := bytes + entries[ids[i]];
      }
      assert ids[..|ids|] == ids;
      usage := if bytes <= U64_MAX then Ok(Usage(|ids|, bytes)) else Err(AccountingOverflow);
    }

    // Evicts exactly the shortest prefix of the ContentId order that reaches the target; what
    // was evicted and what is left add up to what was there.
    method EvictTo(target: u64) returns (result: Result<Eviction, CacheError>, ghost ids: seq<ContentId>, ghost k: nat)
      modifies this
      ensures Listing(old(entries), ids) && k <= |ids|
      ensures Total(old(entries), ids) > U64_MAX ==> result.Err? && entries == old(entries)
      ensures Total(old(entries), ids) <= U64_MAX ==>
                && Shortest(old(entries), ids, target, k)
                && entries == old(entries) - Chosen(ids[..k])
                && Listing(entries, ids[k..])
                && result == Ok(Eviction(Usage(|ids|, Total(old(entries), ids)), Usage(|ids| - k, Total(entries, ids[k..])),
                                         k, Total(old(entries), ids[..k])))
                && Total(entries, ids[k..]) + Total(old(entries), ids[..k]) == Total(old(entries), ids)
    {
      hide Less, Total, Evicting, Chosen, Shortest;
      var listed, before := ScanFanout();
      ids, k := listed, 0;
      if before.Err? {
        return Err(before.error), ids, k;
      }
      var evicted: nat, count: nat := 0, 0;
      EvictingStarts(entries, listed, target);
      while count < |listed| && before.value.bytes - evicted > target
        invariant count <= |listed| && Evicting(old(entries), listed, target, count, entries, evicted)
      {
        EvictingStep(old(entries), listed, target, count, entries, evicted);
        evicted := evicted + entries[listed[count]];
        entries := entries - {listed[count]};
        count := count + 1;
      }
      k := count;
      EvictingEnds(old(entries), listed, target, count, entries, evicted);
      var left, after := ScanFanout();
      ListingIsUnique(left, listed[count..]);
      return Ok(Eviction(before.value, after.value, count, evicted)), ids, k;
    }
  }

  // The first `i` leaves are gone, and each time more was left than the target.
  ghost predicate Evicting(start: Entries, ids: seq<ContentId>, target: u64, i: nat, now: Entries, evicted: nat) {
    && Listing(start, ids) && i <= |ids|
    && now == start - Chosen(ids[..i]) && evicted == Total(start, ids[..i])
    && forall j :: 0 <= j < i ==> Total(start, ids) - Total(start, ids[..j]) > target
  }

  lemma EvictingStarts(start: Entries, ids: seq<ContentId>, target: u64)
    requires Listing(start, ids)
    ensures Evicting(start, ids, target, 0, start, 0)
  {
    RemovedNone(start, ids);
  }

  lemma EvictingStep(start: Entries, ids: seq<ContentId>, target: u64, i: nat, now: Entries, evicted: nat)
    requires Evicting(start, ids, target, i, now, evicted) && i < |ids| && Total(start, ids) - evicted > target
    ensures ids[i] in now && Evicting(start, ids, target, i + 1, now - {ids[i]}, evicted + now[ids[i]])
  {
    hide Total, Less, Chosen;
    RemovedNext(start, ids, i);
  }

  lemma EvictingEnds(start: Entries, ids: seq<ContentId>, target: u64, i: nat, now: Entries, evicted: nat)
    requires Evicting(start, ids, target, i, now, evicted) && (i == |ids| || Total(start, ids) - evicted <= target)
    ensures Shortest(start, ids, target, i) && now == start - Chosen(ids[..i]) && evicted == Total(start, ids[..i])
    ensures Listing(now, ids[i..]) && Total(now, ids[i..]) + evicted == Total(start, ids)
  {
    hide Total, Less, Chosen;
    RestIsListed(start, ids, i);
    TotalSplits(start, ids, i);
  }

  ghost function Chosen(ids: seq<ContentId>): set<ContentId> { set id | id in ids }

  lemma RemovedNone(entries: Entries, ids: seq<ContentId>)
    ensures entries - Chosen(ids[..0]) == entries
  {
    assert Chosen(ids[..0]) == {};
  }

  lemma RemovedNext(entries: Entries, ids: seq<ContentId>, i: nat)
    requires Listing(entries, ids) && i < |ids|
    ensures entries - Chosen(ids[..i + 1]) == (entries - Chosen(ids[..i])) - {ids[i]}
    ensures ids[i] in entries - Chosen(ids[..i]) && (entries - Chosen(ids[..i]))[ids[i]] == entries[ids[i]]
    ensures Total(entries, ids[..i + 1]) == Total(entries, ids[..i]) + entries[ids[i]]
  {
    hide Less;
    assert ids[..i + 1] == ids[..i] + [ids[i]] && ids[..i + 1][..i] == ids[..i];
    LessIrreflexive(ids[i]);
    assert ids[i] in ids;
  }

  lemma RestIsListed(entries: Entries, ids: seq<ContentId>, k: nat)
    requires Listing(entries, ids) && k <= |ids|
    ensures Listing(entries - Chosen(ids[..k]), ids[k..])
    ensures Total(entries - Chosen(ids[..k]), ids[k..]) == Total(entries, ids[k..])
  {
    hide Less, Total;
    var rest, now := ids[k..], entries - Chosen(ids[..k]);
    forall id
      ensures id in rest <==> id in now
    {
      RestHasExactly(ids, k, id);
    }
    assert AscendingKeys(rest);
    TotalAgrees(now, entries, rest);
  }

  lemma RestHasExactly(ids: seq<ContentId>, k: nat, id: ContentId)
    requires AscendingKeys(ids) && k <= |ids|
    ensures id in ids[k..] <==> id in ids && id !in ids[..k]
  {
    hide Less;
    LessIrreflexive(id);
    assert ids == ids[..k] + ids[k..];
    if id in ids[k..] {
      var i :| 0 <= i < |ids[k..]| && ids[k..][i] == id;
      assert ids[k + i] == id;
    }
  }

  lemma {:induction false} TotalAgrees(a: Entries, b: Entries, ids: seq<ContentId>)
    requires forall i :: 0 <= i < |ids| ==> ids[i] in a && ids[i] in b && a[ids[i]] == b[ids[i]]
    ensures Total(a, ids) == Total(b, ids)
  {
    if ids != [] {
      TotalAgrees(a, b, ids[..|ids| - 1]);
    }
  }

  lemma ShortestIsUnique(entries: Entries, ids: seq<ContentId>, target: u64, k: nat, k': nat)
    requires Listing(entries, ids) && Shortest(entries, ids, target, k) && Shortest(entries, ids, target, k')
    ensures k == k'
  {
  }

  // ---------- Admission under pressure ----------

  datatype CapacityError =
    | Measurement
    | Accounting
    | ReservesStillUnmet(before: Capacity, after: Capacity, eviction: Eviction, violation: AdmissionError)

  datatype Admission = Admission(before: Capacity, admitted: Capacity, eviction: Option<Eviction>)

  // What evicting the first `k` of the listed leaves reports.
  ghost function Report(entries: Entries, ids: seq<ContentId>, k: nat): Eviction
    requires Listing(entries, ids) && k <= |ids|
  {
    var left := Total(entries, ids) - Total(entries, ids[..k]);
    TotalSplits(entries, ids, k);
    Eviction(Usage(|ids|, Total(entries, ids)), Usage(|ids| - k, left), k, Total(entries, ids[..k]))
  }

  // Only the second reading decides after an eviction.
  function Decided(policy: ReservePolicy, before: Capacity, second: Option<Capacity>, projected: u64, eviction: Eviction)
    : Result<Admission, CapacityError>
  {
    match second
    case None => Err(Measurement)
    case Some(after) =>
      match Admit(policy, after, projected)
      case Ok(_) => Ok(Admission(before, after, Some(eviction)))
      case Err(violation) => Err(ReservesStillUnmet(before, after, eviction, violation))
  }

  // `measured` are the meter's two readings, either of which may fail. Nothing is evicted unless
  // the first refuses; then exactly the leaves that free the required bytes go, or all of them,
  // whether or not the second reading admits.
  method AdmitLocked(cache: Cache, policy: ReservePolicy, measured: (Option<Capacity>, Option<Capacity>), projected: u64)
      returns (result: Result<Admission, CapacityError>, ghost ids: seq<ContentId>, ghost k: nat)
    modifies cache
    ensures measured.0.None? ==> result == Err(Measurement) && cache.entries == old(cache.entries)
    ensures measured.0.Some? && Admit(policy, measured.0.value, projected).Ok? ==>
              result == Ok(Admission(measured.0.value, measured.0.value, None)) && cache.entries == old(cache.entries)
    ensures measured.0.Some? && Admit(policy, measured.0.value, projected).Err? ==>
              Listing(old(cache.entries), ids) && k <= |ids|
    ensures measured.0.Some? && Admit(policy, measured.0.value, projected).Err? ==>
              var usage, required := Total(old(cache.entries), ids), RequiredReclaim(Admit(policy, measured.0.value, projected).error);
              && (usage > U64_MAX ==> result == Err(Accounting) && cache.entries == old(cache.entries))
              && (usage <= U64_MAX ==>
                    && Shortest(old(cache.entries), ids, Minus(usage, required), k)
                    && cache.entries == old(cache.entries) - Chosen(ids[..k]) && Listing(cache.entries, ids[k..])
                    && (Total(old(cache.entries), ids[..k]) >= required || Total(cache.entries, ids[k..]) == 0)
                    && (measured.1.None? ==> result == Err(Measurement))
                    && (measured.1.Some? && Admit(policy, measured.1.value, projected).Ok? ==>
                          result == Ok(Admission(measured.0.value, measured.1.value, Some(Report(old(cache.entries), ids, k)))))
                    && (measured.1.Some? && Admit(policy, measured.1.value, projected).Err? ==>
                          result == Err(ReservesStillUnmet(measured.0.value, measured.1.value, Report(old(cache.entries), ids, k),
                                                           Admit(policy, measured.1.value, projected).error))))
    ensures result.Ok? ==>
              var a := result.value.admitted;
              && Some(a) == (if result.value.eviction.None? then measured.0 else measured.1)
              && (policy.hostReserve > 0 ==> projected + policy.hostReserve <= a.host)
              && (policy.guestReserve > 0 ==> projected + policy.guestReserve <= a.guest)
  {
    hide Admit, RequiredReclaim, Less, Total, Shortest, Chosen;
    ids, k := [], 0;
    if measured.0.Some? {
      AdmittedExactlyWhen(policy, measured.0.value, projected);
    }
    if measured.1.Some? {
      AdmittedExactlyWhen(policy, measured.1.value, projected);
    }
    if measured.0.None? {
      return Err(Measurement), ids, k;
    }
    var before := measured.0.value;
    var initial := Admit(policy, before, projected);
    if initial.Ok? {
      return Ok(Admission(before, before, None)), ids, k;
    }
    var listed, usage := cache.ScanFanout();
    ids := listed;
    if usage.Err? {
      return Err(Accounting), ids, k;
    }
    var required := RequiredReclaim(initial.error);
    ghost var start := cache.entries;
    var eviction, evictedFrom, evicted := cache.EvictTo(Minus(usage.value.bytes, required));
    ListingIsUnique(listed, evictedFrom);
    EvictionSuffices(start, cache.entries, listed, usage.value.bytes, required, evicted);
    return Decided(policy, before, measured.1, projected, eviction.value), listed, evicted;
  }

  lemma EvictionSuffices(before: Entries, after: Entries, ids: seq<ContentId>, usage: u64, required: u64, k: nat)
    requires Listing(before, ids) && usage == Total(before, ids)
    requires Shortest(before, ids, Minus(usage, required), k) && Listing(after, ids[k..])
    requires Total(after, ids[k..]) + Total(before, ids[..k]) == Total(before, ids)
    ensures Total(before, ids[..k]) >= required || Total(after, ids[k..]) == 0
  {
    hide Less, AscendingKeys;
    if k == |ids| {
      assert ids[k..] == [];
    }
  }
}
