/** Flash sectors from sector groups (`expand_sector_groups` in xtask/src/geometry.rs). */
module Geometry {
  import opened Common

  datatype Group = Group(address: U64, size: U64)

  /** A sector as the loop sees it, before the casts to 32 bits. */
  datatype Sector = Sector(address: U64, size: U64)

  datatype SectorInfo = SectorInfo(address: U32, size: U32)

  datatype Refusal = NoGroups | OutsideFlash(group: nat) | PartialSectors(group: nat)

  // ---------- the stable sort by address ----------

  predicate Sorted(gs: seq<Group>) { forall i, j :: 0 <= i < j < |gs| ==> gs[i].address <= gs[j].address }

  function Insert(g: Group, gs: seq<Group>): seq<Group> {
    if gs == [] || g.address <= gs[0].address then [g] + gs else [gs[0]] + Insert(g, gs[1..])
  }

  /** `sort_by_key(|g| g.address)`. */
  function SortByAddress(gs: seq<Group>): seq<Group> {
    if gs == [] then [] else Insert(gs[0], SortByAddress(gs[1..]))
  }

  lemma {:induction false} InsertPermutes(g: Group, gs: seq<Group>)
    ensures multiset(Insert(g, gs)) == multiset{g} + multiset(gs)
  {
    if gs == [] || g.address <= gs[0].address {
    } else {
      InsertPermutes(g, gs[1..]);
      assert gs == [gs[0]] + gs[1..];
    }
  }

  predicate Before(a: U64, gs: seq<Group>) { forall i :: 0 <= i < |gs| ==> a <= gs[i].address }

  lemma SortedCons(g: Group, gs: seq<Group>)
    requires Sorted(gs) && Before(g.address, gs)
    ensures Sorted([g] + gs)
  {
  }

  lemma {:induction false} InsertStaysBefore(a: U64, g: Group, gs: seq<Group>)
    requires a <= g.address && Before(a, gs)
    ensures Before(a, Insert(g, gs))
  {
    if gs == [] || g.address <= gs[0].address {
    } else {
      InsertStaysBefore(a, g, gs[1..]);
    }
  }

  lemma {:induction false} InsertSorts(g: Group, gs: seq<Group>)
    requires Sorted(gs)
    ensures Sorted(Insert(g, gs))
  {
    if gs == [] || g.address <= gs[0].address {
      SortedCons(g, gs);
    } else {
      InsertSorts(g, gs[1..]);
      InsertStaysBefore(gs[0].address, g, gs[1..]);
      SortedCons(gs[0], Insert(g, gs[1..]));
    }
  }

  predicate IsAt(a: U64, g: Group) { g.address == a }

  /** The groups of one address, in order. */
  function At(gs: seq<Group>, a: U64): seq<Group> { Filter(gs, g => IsAt(a, g)) }

  lemma AtCons(g: Group, gs: seq<Group>, a: U64)
    ensures At([g] + gs, a) == (if IsAt(a, g) then [g] else []) + At(gs, a)
  {
    assert ([g] + gs)[1..] == gs;
  }

  lemma {:induction false} InsertIsStable(g: Group, gs: seq<Group>, a: U64)
    requires Sorted(gs)
    ensures At(Insert(g, gs), a) == At([g] + gs, a)
  {
    if gs == [] || g.address <= gs[0].address {
    } else {
      assert gs == [gs[0]] + gs[1..];
      InsertIsStable(g, gs[1..], a);
      AtCons(gs[0], Insert(g, gs[1..]), a);
      AtCons(g, gs, a);
      AtCons(gs[0], gs[1..], a);
      AtCons(g, gs[1..], a);
    }
  }

  /** The sort is a sort: ordered, a permutation, and stable, groups of one address keeping their order. */
  lemma {:induction false} SortIsStable(gs: seq<Group>)
    ensures Sorted(SortByAddress(gs))
    ensures multiset(SortByAddress(gs)) == multiset(gs)
    ensures forall a: U64 :: At(SortByAddress(gs), a) == At(gs, a)
  {
    if gs == [] {
    } else {
      SortIsStable(gs[1..]);
      var r := SortByAddress(gs[1..]);
      InsertSorts(gs[0], r);
      InsertPermutes(gs[0], r);
      assert gs == [gs[0]] + gs[1..];
      forall a: U64 ensures At(SortByAddress(gs), a) == At(gs, a) {
        InsertIsStable(gs[0], r, a);
        AtCons(gs[0], r, a);
        AtCons(gs[0], gs[1..], a);
      }
    }
  }

  // ---------- what the loops compute ----------

  /** `n.is_multiple_of(d)`: of zero, only zero is a multiple. */
  predicate MultipleOf(n: nat, d: nat) { if d == 0 then n == 0 else n % d == 0 }

  function Start(base: U32, g: Group): U64 { WrapAdd(base, g.address) }

  function End(base: U32, size: U32, gs: seq<Group>, i: nat): U64
    requires i < |gs|
  {
    if i + 1 < |gs| then Start(base, gs[i + 1]) else base + size
  }

  predicate InFlash(base: U32, size: U32, g: Group) { base <= Start(base, g) < base + size }

  predicate Whole(base: U32, size: U32, gs: seq<Group>, i: nat)
    requires i < |gs|
  {
    MultipleOf(WrapSub(End(base, size, gs, i), Start(base, gs[i])), gs[i].size)
  }

  /** The sectors of one group. */
  function Sectors(start: U64, end: U64, size: U64): seq<Sector>
    requires start < end ==> MultipleOf(end - start, size)
    decreases end - start
  {
    if start >= end then []
    else
      StepDown(end - start, size);
      [Sector(start, size)] + Sectors(start + size, end, size)
  }

  lemma StepDown(n: nat, d: nat)
    requires n > 0 && MultipleOf(n, d)
    ensures 0 < d <= n && MultipleOf(n - d, d)
  {
    var q := n / d;
    assert n == q * d;
    assert q >= 1;
    assert n - d == (q - 1) * d;
    MultipleBack(q - 1, d);
  }

  lemma MultipleBack(q: nat, d: nat)
    requires d > 0
    ensures q * d % d == 0
  {
    var n := q * d;
    var k := q - n / d;
    assert k * d == n % d;
    assert k < 1 by {
      if k >= 1 { AtLeast(k, d); }
    }
    assert k > -1 by {
      if k <= -1 { AtLeast(-k, d); }
    }
  }

  lemma AtLeast(k: nat, d: nat)
    requires k >= 1
    ensures k * d >= d
  {
  }

  function Collect(base: U32, size: U32, gs: seq<Group>, i: nat): Result<seq<Sector>, Refusal>
    requires i <= |gs|
    decreases |gs| - i
  {
    if i == |gs| then Ok([])
    else if !InFlash(base, size, gs[i]) then Err(OutsideFlash(i))
    else if !Whole(base, size, gs, i) then Err(PartialSectors(i))
    else Prepend(Sectors(Start(base, gs[i]), End(base, size, gs, i), gs[i].size), Collect(base, size, gs, i + 1))
  }

  function Prepend(s: seq<Sector>, r: Result<seq<Sector>, Refusal>): Result<seq<Sector>, Refusal> {
    match r
    case Ok(rest) => Ok(s + rest)
    case Err(e) => Err(e)
  }

  function Expansion(base: U32, size: U32, groups: seq<Group>): Result<seq<Sector>, Refusal> {
    if groups == [] then Err(NoGroups) else Collect(base, size, SortByAddress(groups), 0)
  }

  // ---------- when expansion succeeds ----------

  function Reach(size: U32, gs: seq<Group>, i: nat): U64
    requires i < |gs|
  {
    if i + 1 < |gs| then gs[i + 1].address else size
  }

  /** A group table is acceptable when every offset lies inside the flash and every group, up to the next
      one in address order, holds a whole number of its sectors. The flash base does not matter. */
  predicate Acceptable(size: U32, gs: seq<Group>, i: nat)
    requires i < |gs|
  {
    gs[i].address < size && gs[i].address <= Reach(size, gs, i)
    && MultipleOf(Reach(size, gs, i) - gs[i].address, gs[i].size)
  }

  lemma InFlashIsOffset(base: U32, size: U32, g: Group)
    ensures InFlash(base, size, g) <==> g.address < size
  {
  }

  lemma {:induction false} CollectSucceedsExactly(base: U32, size: U32, gs: seq<Group>, i: nat)
    requires Sorted(gs) && i <= |gs|
    ensures Collect(base, size, gs, i).Ok? <==> forall k :: i <= k < |gs| ==> Acceptable(size, gs, k)
    decreases |gs| - i
  {
    if i < |gs| {
      CollectSucceedsExactly(base, size, gs, i + 1);
      InFlashIsOffset(base, size, gs[i]);
      if i + 1 < |gs| {
        InFlashIsOffset(base, size, gs[i + 1]);
      }
      assert (forall k :: i <= k < |gs| ==> Acceptable(size, gs, k))
          <==> Acceptable(size, gs, i) && forall k :: i + 1 <= k < |gs| ==> Acceptable(size, gs, k);
    }
  }

  /** Expansion succeeds exactly on the acceptable tables; out-of-range later groups, wrapping offsets, zero
      sizes over a nonempty span and partial sectors all refuse the whole result. */
  lemma ExpansionSucceedsExactly(base: U32, size: U32, groups: seq<Group>)
    ensures var gs := SortByAddress(groups);
            Expansion(base, size, groups).Ok? <==> gs != [] && forall i :: 0 <= i < |gs| ==> Acceptable(size, gs, i)
  {
    SortIsStable(groups);
    var gs := SortByAddress(groups);
    assert |gs| == |multiset(gs)| == |multiset(groups)| == |groups|;
    CollectSucceedsExactly(base, size, gs, 0);
  }

  /** A refusal names the first group, in address order, that starts outside the flash or whose span up to the
      next group (reckoned with wrapping addresses) is not a whole number of its sectors. */
  lemma {:induction false} RefusalNamesFirst(base: U32, size: U32, gs: seq<Group>, i: nat) returns (j: nat)
    requires i <= |gs| && Collect(base, size, gs, i).Err?
    ensures i <= j < |gs| && forall k :: i <= k < j ==> InFlash(base, size, gs[k]) && Whole(base, size, gs, k)
    ensures Collect(base, size, gs, i)
            == if gs[j].address >= size then Err(OutsideFlash(j)) else Err(PartialSectors(j))
    ensures gs[j].address < size ==> !Whole(base, size, gs, j)
    decreases |gs| - i
  {
    InFlashIsOffset(base, size, gs[i]);
    if !InFlash(base, size, gs[i]) || !Whole(base, size, gs, i) {
      j := i;
    } else {
      j := RefusalNamesFirst(base, size, gs, i + 1);
    }
  }

  // ---------- tilings ----------

  /** In order, without gaps or overlaps, from `from` up to `to`, every sector of positive size. */
  ghost predicate Tiles(s: seq<Sector>, from: nat, to: nat) {
    if s == [] then from == to
    else s[0].address == from && s[0].size > 0 && Tiles(s[1..], from + s[0].size, to)
  }

  lemma {:induction false} TilesConcat(s: seq<Sector>, t: seq<Sector>, from: nat, mid: nat, to: nat)
    requires Tiles(s, from, mid) && Tiles(t, mid, to)
    ensures Tiles(s + t, from, to)
  {
    if s == [] {
      assert s + t == t;
    } else {
      TilesConcat(s[1..], t, from + s[0].size, mid, to);
      assert (s + t)[1..] == s[1..] + t;
    }
  }

  lemma {:induction false} SectorsTile(start: U64, end: U64, size: U64)
    requires start <= end && MultipleOf(end - start, size)
    ensures Tiles(Sectors(start, end, size), start, end)
    ensures forall s :: s in Sectors(start, end, size) ==>
              s.size == size && start <= s.address && s.address + s.size <= end
    decreases end - start
  {
    if start < end {
      StepDown(end - start, size);
      SectorsTile(start + size, end, size);
      assert Sectors(start, end, size)[1..] == Sectors(start + size, end, size);
    }
  }

  /** Sector `s` belongs to group `i`: it lies in the group's range and has the group's size. */
  predicate OfGroup(base: U32, size: U32, gs: seq<Group>, i: nat, s: Sector) {
    && i < |gs|
    && base + gs[i].address <= s.address
    && s.address + s.size <= base + Reach(size, gs, i)
    && s.size == gs[i].size
  }

  ghost predicate SizedByGroup(base: U32, size: U32, gs: seq<Group>, s: Sector) {
    exists i: nat :: OfGroup(base, size, gs, i, s)
  }

  lemma {:induction false} CollectTiles(base: U32, size: U32, gs: seq<Group>, i: nat)
    requires Sorted(gs) && i < |gs| && Collect(base, size, gs, i).Ok?
    ensures Tiles(Collect(base, size, gs, i).value, base + gs[i].address, base + size)
    ensures forall s :: s in Collect(base, size, gs, i).value ==> SizedByGroup(base, size, gs, s)
    decreases |gs| - i
  {
    CollectSucceedsExactly(base, size, gs, i);
    assert Acceptable(size, gs, i);
    InFlashIsOffset(base, size, gs[i]);
    var start, end := Start(base, gs[i]), End(base, size, gs, i);
    assert start == base + gs[i].address;
    if i + 1 < |gs| {
      assert Acceptable(size, gs, i + 1);
      CollectTiles(base, size, gs, i + 1);
    }
    assert end == base + Reach(size, gs, i);
    SectorsTile(start, end, gs[i].size);
    var own, rest := Sectors(start, end, gs[i].size), Collect(base, size, gs, i + 1).value;
    TilesConcat(own, rest, start, end, base + size);
    forall s | s in own + rest ensures SizedByGroup(base, size, gs, s) {
      if s in own {
        assert OfGroup(base, size, gs, i, s);
      }
    }
  }

  /** A successful expansion tiles the flash from its first group to its end, each sector with the size its
      group prescribes. */
  lemma ExpansionTiles(base: U32, size: U32, groups: seq<Group>)
    requires Expansion(base, size, groups).Ok?
    ensures var gs, r := SortByAddress(groups), Expansion(base, size, groups).value;
            && gs != []
            && Tiles(r, base + gs[0].address, base + size)
            && forall s :: s in r ==> SizedByGroup(base, size, gs, s)
  {
    ExpansionSucceedsExactly(base, size, groups);
    SortIsStable(groups);
    CollectTiles(base, size, SortByAddress(groups), 0);
  }

  predicate Holds(s: Sector, x: int) { s.address <= x < s.address + s.size }

  /** Every byte of a tiled range lies in exactly one sector. */
  lemma {:induction false} TilesCoverOnce(s: seq<Sector>, from: nat, to: nat, x: nat) returns (k: nat)
    requires Tiles(s, from, to) && from <= x < to
    ensures k < |s| && Holds(s[k], x)
    ensures forall j :: 0 <= j < |s| && Holds(s[j], x) ==> j == k
  {
    if x < from + s[0].size {
      k := 0;
      forall j | 0 < j < |s| ensures !Holds(s[j], x) {
        TilesStayAbove(s[1..], from + s[0].size, to, j - 1);
      }
    } else {
      var i := TilesCoverOnce(s[1..], from + s[0].size, to, x);
      k := i + 1;
      forall j | 0 <= j < |s| && Holds(s[j], x) ensures j == k {
        if j > 0 {
          assert s[1..][j - 1] == s[j];
        }
      }
    }
  }

  lemma {:induction false} TilesStayAbove(s: seq<Sector>, from: nat, to: nat, j: nat)
    requires Tiles(s, from, to) && j < |s|
    ensures from <= s[j].address && s[j].address + s[j].size <= to && s[j].size > 0
  {
    if j == 0 {
      TilesGoUp(s[1..], from + s[0].size, to);
    } else {
      TilesStayAbove(s[1..], from + s[0].size, to, j - 1);
    }
  }

  lemma {:induction false} TilesGoUp(s: seq<Sector>, from: nat, to: nat)
    requires Tiles(s, from, to)
    ensures from <= to
  {
    if s == [] {
    } else {
      TilesGoUp(s[1..], from + s[0].size, to);
    }
  }

  // ---------- the casts ----------

  /** `as u32`. */
  function AsU32(x: U64): U32 { x % 0x1_0000_0000 }

  function Cast(s: Sector): SectorInfo { SectorInfo(AsU32(s.address), AsU32(s.size)) }

  function Stored(s: seq<Sector>): seq<SectorInfo> { seq(|s|, i requires 0 <= i < |s| => Cast(s[i])) }

  function StoredResult(r: Result<seq<Sector>, Refusal>): Result<seq<SectorInfo>, Refusal> {
    match r
    case Ok(s) => Ok(Stored(s))
    case Err(e) => Err(e)
  }

  ghost predicate Exact(s: seq<Sector>) {
    forall k :: 0 <= k < |s| ==> Stored(s)[k].address == s[k].address && Stored(s)[k].size == s[k].size
  }

  lemma {:induction false} LastTile(s: seq<Sector>, from: nat, to: nat)
    requires Tiles(s, from, to) && s != []
    ensures s[|s| - 1].address + s[|s| - 1].size == to
    ensures forall k :: 0 <= k < |s| ==> s[k].address <= s[|s| - 1].address
  {
    if |s| > 1 {
      LastTile(s[1..], from + s[0].size, to);
      assert s[1..][|s| - 2] == s[|s| - 1];
      TilesStayAbove(s[1..], from + s[0].size, to, |s| - 2);
      forall k | 0 <= k < |s| ensures s[k].address <= s[|s| - 1].address {
        if k > 0 {
          assert s[1..][k - 1] == s[k];
        }
      }
    }
  }

  lemma AsU32Exactly(x: U64)
    ensures AsU32(x) == x <==> x <= U32_MAX
  {
  }

  lemma CastsExactly(s: seq<Sector>, from: nat, to: nat)
    requires Tiles(s, from, to) && s != [] && to - from <= U32_MAX
    ensures Exact(s) <==> s[|s| - 1].address <= U32_MAX
  {
    var n := |s| - 1;
    LastTile(s, from, to);
    AsU32Exactly(s[n].address);
    assert Stored(s)[n].address == AsU32(s[n].address);
    forall k | 0 <= k < |s|
      ensures AsU32(s[k].size) == s[k].size
      ensures AsU32(s[k].address) == s[k].address <==> s[k].address <= U32_MAX
    {
      TilesStayAbove(s, from, to, k);
      AsU32Exactly(s[k].address);
      AsU32Exactly(s[k].size);
    }
  }

  lemma LastSectorOfLastGroup(base: U32, size: U32, gs: seq<Group>, s: Sector)
    requires gs != [] && Sorted(gs) && s.address + s.size == base + size && s.size > 0
    requires forall i :: 0 <= i < |gs| ==> Acceptable(size, gs, i)
    requires SizedByGroup(base, size, gs, s)
    ensures s.size == gs[|gs| - 1].size
  {
    var n := |gs| - 1;
    var i: nat :| OfGroup(base, size, gs, i, s);
    assert i < n ==> Acceptable(size, gs, i + 1);
  }

  /** The last sector ends with the flash and has the last group's size. */
  lemma ExpansionEnd(base: U32, size: U32, groups: seq<Group>) returns (last: Sector)
    requires Expansion(base, size, groups).Ok?
    ensures SortByAddress(groups) != [] && Expansion(base, size, groups).value != []
    ensures last == Expansion(base, size, groups).value[|Expansion(base, size, groups).value| - 1]
    ensures last.address + last.size == base + size
    ensures last.size == SortByAddress(groups)[|SortByAddress(groups)| - 1].size
  {
    var gs, r := SortByAddress(groups), Expansion(base, size, groups).value;
    ExpansionTiles(base, size, groups);
    ExpansionSucceedsExactly(base, size, groups);
    SortIsStable(groups);
    assert Acceptable(size, gs, 0);
    var from := base + gs[0].address;
    assert r != [];
    last := r[|r| - 1];
    LastTile(r, from, base + size);
    TilesStayAbove(r, from, base + size, |r| - 1);
    LastSectorOfLastGroup(base, size, gs, last);
  }

  /** The 32-bit casts lose nothing exactly when the last sector starts below 2^32: when the end of the flash
      minus the last group's sector size does. */
  lemma StoredExactly(base: U32, size: U32, groups: seq<Group>)
    requires Expansion(base, size, groups).Ok?
    ensures var gs := SortByAddress(groups);
            && gs != []
            && (Exact(Expansion(base, size, groups).value) <==> base + size - gs[|gs| - 1].size <= U32_MAX)
  {
    var last := ExpansionEnd(base, size, groups);
    ExpansionTiles(base, size, groups);
    CastsExactly(Expansion(base, size, groups).value, base + SortByAddress(groups)[0].address, base + size);
  }

  /** The casts do lose bits: two one-byte sectors across 2^32 expand, and the second is stored at address zero. */
  lemma TruncationOccurs()
    ensures var r := Expansion(U32_MAX, 2, [Group(0, 1)]); r.Ok? && !Exact(r.value)
  {
    var groups := [Group(0, 1)];
    assert SortByAddress(groups) == groups;
    assert Acceptable(2, groups, 0);
    ExpansionSucceedsExactly(U32_MAX, 2, groups);
    StoredExactly(U32_MAX, 2, groups);
  }

  // ---------- the loops ----------

  lemma StoredConcat(s: seq<Sector>, t: seq<Sector>)
    ensures Stored(s + t) == Stored(s) + Stored(t)
  {
  }

  lemma PrependConcat(s: seq<Sector>, t: seq<Sector>, r: Result<seq<Sector>, Refusal>)
    ensures Prepend([], r) == r
    ensures Prepend(s, Prepend(t, r)) == Prepend(s + t, r)
  {
    if r.Ok? {
      assert [] + r.value == r.value;
      assert s + (t + r.value) == s + t + r.value;
    }
  }

  /** The inner loop: the sectors of one group, pushed one by one. */
  method PushGroup(sectors: seq<SectorInfo>, groupStart: U64, groupEnd: U64, size: U64)
    returns (r: seq<SectorInfo>)
    requires groupStart < groupEnd ==> MultipleOf(groupEnd - groupStart, size)
    ensures r == sectors + Stored(Sectors(groupStart, groupEnd, size))
  {
    r := sectors;
    var addr: U64 := groupStart;
    ghost var done: seq<Sector> := [];
    while addr < groupEnd
      invariant addr < groupEnd ==> MultipleOf(groupEnd - addr, size)
      invariant r == sectors + Stored(done)
      invariant Sectors(groupStart, groupEnd, size) == done + Sectors(addr, groupEnd, size)
      decreases groupEnd - addr
    {
      StepDown(groupEnd - addr, size);
      StoredConcat(done, [Sector(addr, size)]);
      r := r + [SectorInfo(AsU32(addr), AsU32(size))];
      done := done + [Sector(addr, size)];
      addr := WrapAdd(addr, size);
    }
  }

  method ExpandSectorGroups(base: U32, size: U32, groups: seq<Group>)
    returns (r: Result<seq<SectorInfo>, Refusal>)
    ensures r == StoredResult(Expansion(base, size, groups))
  {
    if |groups| == 0 {
      return Err(NoGroups);
    }
    var gs := SortByAddress(groups);
    var flashEnd := base + size;
    var sectors: seq<SectorInfo> := [];
    ghost var done: seq<Sector> := [];
    PrependConcat([], [], Collect(base, size, gs, 0));
    var i := 0;
    while i < |gs|
      invariant 0 <= i <= |gs|
      invariant sectors == Stored(done)
      invariant Expansion(base, size, groups) == Prepend(done, Collect(base, size, gs, i))
    {
      var groupStart := WrapAdd(base, gs[i].address);
      if groupStart < base || groupStart >= flashEnd {
        return Err(OutsideFlash(i));
      }
      var groupEnd := if i + 1 < |gs| then WrapAdd(base, gs[i + 1].address) else flashEnd;
      if !MultipleOf(WrapSub(groupEnd, groupStart), gs[i].size) {
        return Err(PartialSectors(i));
      }
      ghost var own := Sectors(groupStart, groupEnd, gs[i].size);
      sectors := PushGroup(sectors, groupStart, groupEnd, gs[i].size);
      StoredConcat(done, own);
      PrependConcat(done, own, Collect(base, size, gs, i + 1));
      done := done + own;
      i := i + 1;
    }
    assert done + [] == done;
    return Ok(sectors);
  }
}
