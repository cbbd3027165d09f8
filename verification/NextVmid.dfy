/** The guest id allocator of `lib/next-vmid.ts`. */
module NextVmid {
  import opened Text

  /** A number as the callers report it; only whole ones can be guest ids. */
  datatype Reported = Whole(id: int) | NotWhole

  /** `filter((n) => Number.isInteger(n) && n >= min)` */
  function Ids(used: seq<Reported>, min: int): seq<int> {
    if used == [] then []
    else
      var rest := Ids(used[1..], min);
      if used[0].Whole? && used[0].id >= min then [used[0].id] + rest else rest
  }

  lemma {:induction false} IdsAre(used: seq<Reported>, min: int)
    ensures forall id :: id in Ids(used, min) <==> Whole(id) in used && id >= min
  {
    if used != [] {
      IdsAre(used[1..], min);
    }
  }

  function MaxOf(ids: seq<int>): (m: int)
    requires ids != []
    ensures m in ids && forall id :: id in ids ==> id <= m
  {
    if |ids| == 1 then ids[0]
    else
      assert ids == [ids[0]] + ids[1..];
      var rest := MaxOf(ids[1..]);
      if ids[0] >= rest then ids[0] else rest
  }

  predicate Blocked(ids: seq<int>, skip: int -> bool, id: int) {
    id in ids || skip(id)
  }

  /** Above some id nothing is skipped. */
  ghost predicate SkipsEnd(skip: int -> bool) {
    exists limit: int :: NoSkipsFrom(skip, limit)
  }

  ghost predicate NoSkipsFrom(skip: int -> bool, limit: int) {
    forall id :: id >= limit ==> !skip(id)
  }

  // ---------- what is allocated ----------

  ghost predicate FirstFreeFrom(ids: seq<int>, skip: int -> bool, from: int, r: int) {
    from <= r && !Blocked(ids, skip, r) && forall id :: from <= id < r ==> Blocked(ids, skip, id)
  }

  ghost predicate LastFreeBelow(ids: seq<int>, skip: int -> bool, min: int, top: int, r: int) {
    min <= r < top && !Blocked(ids, skip, r) && forall id :: r < id < top ==> Blocked(ids, skip, id)
  }

  ghost predicate FullBelow(ids: seq<int>, skip: int -> bool, min: int, top: int) {
    forall id :: min <= id < top ==> Blocked(ids, skip, id)
  }

  /**
    The id to give out: the greatest free one below the largest used id, without one the least free one
    above it, and where nothing is used the least free one from `min`.
  */
  ghost predicate IsNext(used: seq<Reported>, min: int, skip: int -> bool, r: int) {
    var ids := Ids(used, min);
    if ids == [] then FirstFreeFrom(ids, skip, min, r)
    else if FullBelow(ids, skip, min, MaxOf(ids)) then FirstFreeFrom(ids, skip, MaxOf(ids) + 1, r)
    else LastFreeBelow(ids, skip, min, MaxOf(ids), r)
  }

  /** `while (blocked(up)) up += 1` */
  method FreeFrom(ids: seq<int>, skip: int -> bool, from: int) returns (r: int)
    requires SkipsEnd(skip)
    ensures FirstFreeFrom(ids, skip, from, r)
  {
    ghost var limit :| NoSkipsFrom(skip, limit);
    ghost var end := if ids != [] && MaxOf(ids) >= limit then MaxOf(ids) + 1 else limit;
    r := from;
    while Blocked(ids, skip, r)
      invariant from <= r && forall id :: from <= id < r ==> Blocked(ids, skip, id)
      decreases end - r
    {
      r := r + 1;
    }
  }

  method NextSmallerVmid(used: seq<Reported>, min: int, skip: int -> bool) returns (r: int)
    requires SkipsEnd(skip)
    ensures IsNext(used, min, skip, r)
  {
    var ids := Ids(used, min);
    if ids == [] {
      r := FreeFrom(ids, skip, min);
      return;
    }
    var top := MaxOf(ids);
    var id := top - 1;
    while id >= min
      invariant id < top && forall k :: id < k < top ==> Blocked(ids, skip, k)
    {
      if !Blocked(ids, skip, id) {
        return id;
      }
      id := id - 1;
    }
    r := FreeFrom(ids, skip, top + 1);
  }

  // ---------- what callers rely on ----------

  /** The id is free: at least `min`, not in use and not skipped. */
  lemma NextIsFree(used: seq<Reported>, min: int, skip: int -> bool, r: int)
    requires IsNext(used, min, skip, r)
    ensures r >= min && Whole(r) !in used && !skip(r)
  {
    IdsAre(used, min);
  }

  /** There is no choice. */
  lemma NextIsUnique(used: seq<Reported>, min: int, skip: int -> bool, r: int, s: int)
    requires IsNext(used, min, skip, r) && IsNext(used, min, skip, s)
    ensures r == s
  {
    var ids := Ids(used, min);
    assert !Blocked(ids, skip, r) && !Blocked(ids, skip, s);
  }

  lemma IdsSnoc(used: seq<Reported>, min: int, r: int)
    requires r >= min
    ensures Ids(used + [Whole(r)], min) != []
    ensures forall id :: id in Ids(used + [Whole(r)], min) <==> id in Ids(used, min) || id == r
    ensures MaxOf(Ids(used + [Whole(r)], min))
         == if Ids(used, min) == [] || MaxOf(Ids(used, min)) < r then r else MaxOf(Ids(used, min))
  {
    var more := Ids(used + [Whole(r)], min);
    IdsAre(used, min);
    IdsAre(used + [Whole(r)], min);
    assert Whole(r) in used + [Whole(r)];
    assert r in more;
    var m := if Ids(used, min) == [] || MaxOf(Ids(used, min)) < r then r else MaxOf(Ids(used, min));
    assert m in more && MaxOf(more) in more;
    assert MaxOf(more) <= m;
  }

  /**
    Once an id below the largest used one has been taken into use, the next one is smaller still, unless
    everything below the largest used id is now taken: then it is the first free one above.
  */
  lemma NextDescends(used: seq<Reported>, min: int, skip: int -> bool, r: int, s: int)
    requires Ids(used, min) != [] && r < MaxOf(Ids(used, min))
    requires IsNext(used, min, skip, r) && IsNext(used + [Whole(r)], min, skip, s)
    ensures var top := MaxOf(Ids(used, min));
            s < r || (s > top && FullBelow(Ids(used + [Whole(r)], min), skip, min, top))
  {
    NextIsFree(used, min, skip, r);
    IdsSnoc(used, min, r);
    var ids, more := Ids(used, min), Ids(used + [Whole(r)], min);
    assert Blocked(more, skip, r) && !Blocked(more, skip, s);
    assert forall id :: Blocked(ids, skip, id) ==> Blocked(more, skip, id);
  }

  /** Once ids are given out above all used ones, they keep growing. */
  lemma NextAscends(used: seq<Reported>, min: int, skip: int -> bool, r: int, s: int)
    requires Ids(used, min) != [] && r > MaxOf(Ids(used, min))
    requires IsNext(used, min, skip, r) && IsNext(used + [Whole(r)], min, skip, s)
    ensures s > r
  {
    NextIsFree(used, min, skip, r);
    IdsSnoc(used, min, r);
    var ids, more := Ids(used, min), Ids(used + [Whole(r)], min);
    assert MaxOf(ids) in ids;
    forall id | min <= id < r
      ensures Blocked(more, skip, id)
    {
      assert id == MaxOf(ids) || Blocked(ids, skip, id);
      assert id in ids ==> id in more;
    }
  }

  // ---------- merging ----------

  datatype Part = Part(vmids: seq<Reported>, ips: seq<string>)

  /** The whole ids above zero, in their order. */
  function Positive(reported: seq<Reported>): seq<int> {
    if reported == [] then []
    else
      var last := reported[|reported| - 1];
      Positive(reported[..|reported| - 1]) + if last.Whole? && last.id > 0 then [last.id] else []
  }

  function NonEmptyIps(ips: seq<string>): seq<string> {
    if ips == [] then []
    else
      var last := ips[|ips| - 1];
      NonEmptyIps(ips[..|ips| - 1]) + if last != "" then [last] else []
  }

  /** All usable ids that the parts report, one part after the other. */
  function AllVmids(parts: seq<Part>): seq<int> {
    if parts == [] then [] else AllVmids(parts[..|parts| - 1]) + Positive(parts[|parts| - 1].vmids)
  }

  function AllIps(parts: seq<Part>): seq<string> {
    if parts == [] then [] else AllIps(parts[..|parts| - 1]) + NonEmptyIps(parts[|parts| - 1].ips)
  }

  lemma PositiveSnoc(before: seq<int>, reported: seq<Reported>, n: nat)
    requires n < |reported|
    ensures var row := reported[n];
            before + Positive(reported[..n + 1])
            == if row.Whole? && row.id > 0 then (before + Positive(reported[..n])) + [row.id]
               else before + Positive(reported[..n])
  {
    assert reported[..n + 1][..n] == reported[..n];
  }

  lemma NonEmptySnoc(before: seq<string>, ips: seq<string>, n: nat)
    requires n < |ips|
    ensures before + NonEmptyIps(ips[..n + 1])
            == if ips[n] != "" then (before + NonEmptyIps(ips[..n])) + [ips[n]] else before + NonEmptyIps(ips[..n])
  {
    assert ips[..n + 1][..n] == ips[..n];
  }

  /** `vmids.add(id)` for the whole ids above zero of one part */
  method AddVmids(vmids: seq<int>, reported: seq<Reported>, ghost before: seq<int>) returns (r: seq<int>)
    requires vmids == Unique(before)
    ensures r == Unique(before + Positive(reported))
  {
    r := vmids;
    assert reported[..0] == [] && before + [] == before;
    for n := 0 to |reported|
      invariant r == Unique(before + Positive(reported[..n]))
    {
      PositiveSnoc(before, reported, n);
      var row := reported[n];
      if row.Whole? && row.id > 0 {
        UniqueSnoc(before + Positive(reported[..n]), row.id);
        if row.id !in r {
          r := r + [row.id];
        }
      }
    }
    assert reported[..|reported|] == reported;
  }

  method AddIps(ips: seq<string>, reported: seq<string>, ghost before: seq<string>) returns (r: seq<string>)
    requires ips == Unique(before)
    ensures r == Unique(before + NonEmptyIps(reported))
  {
    r := ips;
    assert reported[..0] == [] && before + [] == before;
    for n := 0 to |reported|
      invariant r == Unique(before + NonEmptyIps(reported[..n]))
    {
      NonEmptySnoc(before, reported, n);
      if reported[n] != "" {
        UniqueSnoc(before + NonEmptyIps(reported[..n]), reported[n]);
        if reported[n] !in r {
          r := r + [reported[n]];
        }
      }
    }
    assert reported[..|reported|] == reported;
  }

  /** What the parts report, each id and address once, in the order of first appearance. */
  method MergeUsedGuestSets(parts: seq<Part>) returns (vmids: seq<int>, ips: seq<string>)
    ensures vmids == Unique(AllVmids(parts)) && ips == Unique(AllIps(parts))
  {
    vmids, ips := [], [];
    for n := 0 to |parts|
      invariant vmids == Unique(AllVmids(parts[..n])) && ips == Unique(AllIps(parts[..n]))
    {
      assert parts[..n + 1][..n] == parts[..n];
      vmids := AddVmids(vmids, parts[n].vmids, AllVmids(parts[..n]));
      ips := AddIps(ips, parts[n].ips, AllIps(parts[..n]));
    }
    assert parts[..|parts|] == parts;
  }

  ghost predicate ReportsVmid(parts: seq<Part>, id: int) {
    id > 0 && exists p :: p in parts && Whole(id) in p.vmids
  }

  ghost predicate ReportsIp(parts: seq<Part>, ip: string) {
    ip != "" && exists p :: p in parts && ip in p.ips
  }

  lemma {:induction false} PositiveIs(reported: seq<Reported>, id: int)
    ensures id in Positive(reported) <==> id > 0 && Whole(id) in reported
    decreases |reported|
  {
    if reported != [] {
      var n := |reported| - 1;
      PositiveIs(reported[..n], id);
      assert reported == reported[..n] + [reported[n]];
    }
  }

  lemma {:induction false} NonEmptyIs(ips: seq<string>, ip: string)
    ensures ip in NonEmptyIps(ips) <==> ip != "" && ip in ips
    decreases |ips|
  {
    if ips != [] {
      var n := |ips| - 1;
      NonEmptyIs(ips[..n], ip);
      assert ips == ips[..n] + [ips[n]];
    }
  }

  lemma ReportsSnoc(parts: seq<Part>, id: int, ip: string)
    requires parts != []
    ensures var n := |parts| - 1;
            && (ReportsVmid(parts, id) <==> ReportsVmid(parts[..n], id) || (id > 0 && Whole(id) in parts[n].vmids))
            && (ReportsIp(parts, ip) <==> ReportsIp(parts[..n], ip) || (ip != "" && ip in parts[n].ips))
  {
    var n := |parts| - 1;
    assert parts == parts[..n] + [parts[n]];
    assert forall p :: p in parts <==> p in parts[..n] || p == parts[n];
  }

  lemma {:induction false} AllReported(parts: seq<Part>, id: int, ip: string)
    ensures id in AllVmids(parts) <==> ReportsVmid(parts, id)
    ensures ip in AllIps(parts) <==> ReportsIp(parts, ip)
    decreases |parts|
  {
    if parts != [] {
      var n := |parts| - 1;
      AllReported(parts[..n], id, ip);
      PositiveIs(parts[n].vmids, id);
      NonEmptyIs(parts[n].ips, ip);
      ReportsSnoc(parts, id, ip);
    }
  }

  /** The union of what the parts report: every id above zero and every address once, and nothing else. */
  lemma MergedIsUnion(parts: seq<Part>, id: int, ip: string)
    ensures NoRepeats(Unique(AllVmids(parts))) && NoRepeats(Unique(AllIps(parts)))
    ensures id in Unique(AllVmids(parts)) <==> ReportsVmid(parts, id)
    ensures ip in Unique(AllIps(parts)) <==> ReportsIp(parts, ip)
  {
    UniqueHasNoRepeats(AllVmids(parts));
    UniqueHasNoRepeats(AllIps(parts));
    AllReported(parts, id, ip);
  }
}
