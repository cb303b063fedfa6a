/** Flash layout policy and the layout lock (xtask/src/layout.rs). */
module Layout {
  import opened Common
  import opened Geometry

  datatype FlashGeometry = FlashGeometry(base: U32, size: U32, sectors: seq<SectorInfo>)

  datatype FlashLayout = FlashLayout(bootloaderStart: U32, reserve: U32, appStart: U32)

  datatype LayoutLock = LayoutLock(version: U32, base: U32, reserve: U32, appStart: U32, computedFrom: U32)

  datatype ReserveMode = Auto | Fixed

  datatype LayoutError = WontFit | ExceedsFixedReserve

  /** Additions to a `u32` wrap. */
  function Add32(a: U32, b: U32): U32 { AsU32(a + b) }

  // ---------- the policy ----------

  /** The loop of `compute_layout` from sector `k` on. */
  function Reserve(sectors: seq<SectorInfo>, bootloader: U32, k: nat, acc: U32): U32
    requires k <= |sectors|
    decreases |sectors| - k
  {
    if k == |sectors| then acc
    else
      var next := Add32(acc, sectors[k].size);
      if next >= bootloader then next else Reserve(sectors, bootloader, k + 1, next)
  }

  function Needed(geo: FlashGeometry, bootloader: U32): Result<FlashLayout, LayoutError> {
    var reserve := Reserve(geo.sectors, bootloader, 0, 0);
    if reserve < bootloader then Err(WontFit) else Ok(FlashLayout(geo.base, reserve, Add32(geo.base, reserve)))
  }

  method ComputeLayout(geo: FlashGeometry, bootloader: U32) returns (r: Result<FlashLayout, LayoutError>)
    ensures r == Needed(geo, bootloader)
  {
    var reserve: U32 := 0;
    var k := 0;
    while k < |geo.sectors|
      invariant 0 <= k <= |geo.sectors|
      invariant Reserve(geo.sectors, bootloader, 0, 0) == Reserve(geo.sectors, bootloader, k, reserve)
    {
      reserve := Add32(reserve, geo.sectors[k].size);
      if reserve >= bootloader {
        break;
      }
      k := k + 1;
    }
    if reserve < bootloader {
      return Err(WontFit);
    }
    return Ok(FlashLayout(geo.base, reserve, Add32(geo.base, reserve)));
  }

  predicate ValidateLayout(layout: FlashLayout, bootloader: U32) { bootloader <= layout.reserve }

  /** Bytes in the first `n` sectors. */
  function Total(sectors: seq<SectorInfo>, n: nat): nat
    requires n <= |sectors|
  {
    if n == 0 then 0 else Total(sectors, n - 1) + sectors[n - 1].size
  }

  lemma {:induction false} TotalGrows(sectors: seq<SectorInfo>, m: nat, n: nat)
    requires m <= n <= |sectors|
    ensures Total(sectors, m) <= Total(sectors, n)
  {
    if m < n {
      TotalGrows(sectors, m, n - 1);
    }
  }

  /** The first `n` sectors are the shortest nonempty prefix that holds the bootloader. */
  ghost predicate ShortestFit(sectors: seq<SectorInfo>, bootloader: U32, n: nat) {
    && 0 < n <= |sectors|
    && bootloader <= Total(sectors, n)
    && forall m :: 0 < m < n ==> Total(sectors, m) < bootloader
  }

  lemma AddFits(a: U32, b: U32)
    requires a + b <= U32_MAX
    ensures Add32(a, b) == a + b
  {
    AsU32Exactly(a + b);
  }

  /** The loop stops at the shortest fit, or runs through every sector when nothing fits. */
  lemma {:induction false} ReserveStops(sectors: seq<SectorInfo>, bootloader: U32, k: nat, acc: U32) returns (n: nat)
    requires k <= |sectors| && acc == Total(sectors, k) && Total(sectors, |sectors|) <= U32_MAX
    requires forall m :: 0 < m <= k ==> Total(sectors, m) < bootloader
    ensures n <= |sectors| && Reserve(sectors, bootloader, k, acc) == Total(sectors, n)
    ensures ShortestFit(sectors, bootloader, n)
            || (n == |sectors| && forall m :: 0 < m <= n ==> Total(sectors, m) < bootloader)
    decreases |sectors| - k
  {
    if k == |sectors| {
      n := k;
    } else {
      TotalGrows(sectors, k + 1, |sectors|);
      AddFits(acc, sectors[k].size);
      if Total(sectors, k + 1) >= bootloader {
        n := k + 1;
      } else {
        n := ReserveStops(sectors, bootloader, k + 1, Total(sectors, k + 1));
      }
    }
  }

  /** Sector sizes that add up to a 32-bit flash size. */
  predicate Sized(geo: FlashGeometry) { Total(geo.sectors, |geo.sectors|) <= U32_MAX }

  /** A layout exists exactly when the bootloader fits in all sectors together; it starts at the flash base and
      reserves the shortest nonempty prefix of sectors that holds the bootloader. */
  lemma LayoutIsShortestFit(geo: FlashGeometry, bootloader: U32)
    requires Sized(geo)
    ensures Needed(geo, bootloader).Ok? <==> bootloader <= Total(geo.sectors, |geo.sectors|)
    ensures Needed(geo, bootloader).Ok? ==> Needed(geo, bootloader).value.bootloaderStart == geo.base
    ensures Needed(geo, bootloader).Ok? && geo.sectors != [] ==>
              exists n :: ShortestFit(geo.sectors, bootloader, n)
                          && Needed(geo, bootloader).value.reserve == Total(geo.sectors, n)
    ensures Needed(geo, bootloader).Ok? && geo.sectors == [] ==> Needed(geo, bootloader).value.reserve == 0
    ensures Needed(geo, bootloader).Err? ==> Needed(geo, bootloader).error == WontFit
  {
    var n := ReserveStops(geo.sectors, bootloader, 0, 0);
    TotalGrows(geo.sectors, n, |geo.sectors|);
  }

  /** A larger bootloader never needs less. */
  lemma NeededMonotone(geo: FlashGeometry, small: U32, large: U32)
    requires Sized(geo) && small <= large && Needed(geo, large).Ok?
    ensures Needed(geo, small).Ok? && Needed(geo, small).value.reserve <= Needed(geo, large).value.reserve
  {
    var m := ReserveStops(geo.sectors, small, 0, 0);
    var n := ReserveStops(geo.sectors, large, 0, 0);
    TotalGrows(geo.sectors, m, |geo.sectors|);
    if m <= n {
      TotalGrows(geo.sectors, m, n);
    }
  }

  // ---------- on an expanded geometry ----------

  /** The geometry whose sectors are the exact expansion of `groups`. */
  ghost predicate Expanded(geo: FlashGeometry, groups: seq<Group>) {
    && Expansion(geo.base, geo.size, groups).Ok?
    && geo.sectors == Stored(Expansion(geo.base, geo.size, groups).value)
    && Exact(Expansion(geo.base, geo.size, groups).value)
    && SortByAddress(groups) != []
  }

  /** The offset of its first group, where its first sector starts. */
  function FirstOffset(groups: seq<Group>): U64
    requires SortByAddress(groups) != []
  {
    SortByAddress(groups)[0].address
  }

  lemma {:induction false} TotalOfTiles(s: seq<Sector>, t: seq<SectorInfo>, from: nat, to: nat, n: nat)
    requires Tiles(s, from, to) && Exact(s) && t == Stored(s) && n <= |s|
    ensures n < |s| ==> s[n].address == from + Total(t, n)
    ensures n == |s| ==> to == from + Total(t, n)
  {
    if n == 0 {
    } else {
      TotalOfTiles(s, t, from, to, n - 1);
      Adjacent(s, from, to, n - 1);
    }
  }

  lemma {:induction false} Adjacent(s: seq<Sector>, from: nat, to: nat, k: nat)
    requires Tiles(s, from, to) && k < |s|
    ensures s[0].address == from
    ensures s[k].address + s[k].size == if k + 1 < |s| then s[k + 1].address else to
  {
    if k > 0 {
      Adjacent(s[1..], from + s[0].size, to, k - 1);
    } else if |s| > 1 {
      assert s[1] == s[1..][0];
    }
  }

  /** Where the sectors of an expanded geometry lie, and when a layout exists. */
  lemma SectorsAt(geo: FlashGeometry, groups: seq<Group>, bootloader: U32, n: nat)
    requires Expanded(geo, groups) && n <= |geo.sectors|
    ensures n < |geo.sectors| ==> geo.sectors[n].address == geo.base + FirstOffset(groups) + Total(geo.sectors, n)
    ensures n == |geo.sectors| ==> geo.size == FirstOffset(groups) + Total(geo.sectors, n)
    ensures Sized(geo)
    ensures Needed(geo, bootloader).Ok? <==> bootloader <= geo.size - FirstOffset(groups)
  {
    var s := Expansion(geo.base, geo.size, groups).value;
    var from, to := geo.base + FirstOffset(groups), geo.base + geo.size;
    ExpansionTiles(geo.base, geo.size, groups);
    TotalOfTiles(s, geo.sectors, from, to, n);
    TotalOfTiles(s, geo.sectors, from, to, |s|);
    LayoutIsShortestFit(geo, bootloader);
  }

  /** `end` falls inside sector `k`. */
  predicate Cuts(geo: FlashGeometry, end: nat, k: nat)
    requires k < |geo.sectors|
  {
    geo.sectors[k].address < end < geo.sectors[k].address + geo.sectors[k].size
  }

  predicate CutsNone(geo: FlashGeometry, end: nat) { forall k :: 0 <= k < |geo.sectors| ==> !Cuts(geo, end, k) }

  /** `x` bytes end inside sector `k` of sectors laid end to end. */
  predicate Splits(sectors: seq<SectorInfo>, x: int, k: nat)
    requires k < |sectors|
  {
    Total(sectors, k) < x < Total(sectors, k + 1)
  }

  predicate SplitsNone(sectors: seq<SectorInfo>, x: int) {
    forall k :: 0 <= k < |sectors| ==> !Splits(sectors, x, k)
  }

  lemma {:induction false} BoundaryAt(sectors: seq<SectorInfo>, x: nat, n: nat) returns (m: nat)
    requires n <= |sectors| && x <= Total(sectors, n) && SplitsNone(sectors, x)
    ensures m <= n && Total(sectors, m) == x
  {
    m := n;
    if n > 0 && x < Total(sectors, n) {
      assert !Splits(sectors, x, n - 1);
      m := BoundaryAt(sectors, x, n - 1);
    }
  }

  /** The bytes of the reserve beyond the first offset make up a whole number of sectors. */
  ghost predicate WholeBeyond(sectors: seq<SectorInfo>, offset: nat, reserve: nat) {
    exists m: nat :: m <= |sectors| && offset + Total(sectors, m) == reserve
  }

  lemma WholeSplitsNone(sectors: seq<SectorInfo>, m: nat)
    requires m <= |sectors|
    ensures SplitsNone(sectors, Total(sectors, m))
  {
    forall k | 0 <= k < |sectors| ensures !Splits(sectors, Total(sectors, m), k) {
      if k < m {
        TotalGrows(sectors, k + 1, m);
      } else {
        TotalGrows(sectors, m, k);
      }
    }
  }

  lemma SplitsNoneExactly(sectors: seq<SectorInfo>, offset: nat, reserve: nat)
    requires reserve <= offset + Total(sectors, |sectors|)
    ensures SplitsNone(sectors, reserve - offset) <==> reserve <= offset || WholeBeyond(sectors, offset, reserve)
  {
    if WholeBeyond(sectors, offset, reserve) {
      var m: nat :| m <= |sectors| && offset + Total(sectors, m) == reserve;
      WholeSplitsNone(sectors, m);
    }
    if reserve > offset && SplitsNone(sectors, reserve - offset) {
      var m := BoundaryAt(sectors, reserve - offset, |sectors|);
      assert offset + Total(sectors, m) == reserve;
    }
  }

  lemma CutAt(geo: FlashGeometry, groups: seq<Group>, end: nat, k: nat)
    requires Expanded(geo, groups) && k < |geo.sectors|
    ensures Cuts(geo, end, k) <==> Splits(geo.sectors, end - geo.base - FirstOffset(groups), k)
  {
    SectorsAt(geo, groups, 0, k);
  }

  lemma CutsAsSplits(geo: FlashGeometry, groups: seq<Group>, end: nat)
    requires Expanded(geo, groups)
    ensures CutsNone(geo, end) <==> SplitsNone(geo.sectors, end - geo.base - FirstOffset(groups))
  {
    var x := end - geo.base - FirstOffset(groups);
    if CutsNone(geo, end) {
      forall k | 0 <= k < |geo.sectors| ensures !Splits(geo.sectors, x, k) {
        assert !Cuts(geo, end, k);
        CutAt(geo, groups, end, k);
      }
    }
    if SplitsNone(geo.sectors, x) {
      forall k | 0 <= k < |geo.sectors| ensures !Cuts(geo, end, k) {
        assert !Splits(geo.sectors, x, k);
        CutAt(geo, groups, end, k);
      }
    }
  }

  lemma ReserveWithin(geo: FlashGeometry, bootloader: U32)
    requires Sized(geo) && Needed(geo, bootloader).Ok?
    ensures Needed(geo, bootloader).value.reserve <= Total(geo.sectors, |geo.sectors|)
  {
    var n := ReserveStops(geo.sectors, bootloader, 0, 0);
    TotalGrows(geo.sectors, n, |geo.sectors|);
  }

  lemma CutsNoneByReserve(geo: FlashGeometry, groups: seq<Group>, bootloader: U32)
    requires Expanded(geo, groups) && Needed(geo, bootloader).Ok?
    ensures var reserve := Needed(geo, bootloader).value.reserve;
      CutsNone(geo, geo.base + reserve)
      <==> reserve <= FirstOffset(groups) || WholeBeyond(geo.sectors, FirstOffset(groups), reserve)
  {
    var reserve := Needed(geo, bootloader).value.reserve;
    SectorsAt(geo, groups, bootloader, 0);
    ReserveWithin(geo, bootloader);
    CutsAsSplits(geo, groups, geo.base + reserve);
    SplitsNoneExactly(geo.sectors, FirstOffset(groups), reserve);
  }

  /** There is one shortest fit, and its bytes are the reserve. */
  lemma ReserveIsShortestFit(geo: FlashGeometry, bootloader: U32) returns (n: nat)
    requires Sized(geo) && Needed(geo, bootloader).Ok? && geo.sectors != []
    ensures ShortestFit(geo.sectors, bootloader, n)
    ensures forall k: nat :: ShortestFit(geo.sectors, bootloader, k) ==> k == n
    ensures Needed(geo, bootloader).value.reserve == Total(geo.sectors, n)
  {
    n := ReserveStops(geo.sectors, bootloader, 0, 0);
  }

  /** The bytes of the first `n` sectors, counted from the flash base, end below the first sector or between
      two: they are no more than the first offset, or that offset and some shorter prefix of sectors. */
  ghost predicate EndsBetween(sectors: seq<SectorInfo>, offset: nat, n: nat)
    requires n <= |sectors|
  {
    Total(sectors, n) <= offset || exists m: nat :: m <= n && offset + Total(sectors, m) == Total(sectors, n)
  }

  lemma WholeBeyondAt(sectors: seq<SectorInfo>, offset: nat, n: nat)
    requires n <= |sectors|
    ensures Total(sectors, n) <= offset || WholeBeyond(sectors, offset, Total(sectors, n))
            <==> EndsBetween(sectors, offset, n)
  {
    if WholeBeyond(sectors, offset, Total(sectors, n)) {
      var m: nat :| m <= |sectors| && offset + Total(sectors, m) == Total(sectors, n);
      if m > n {
        TotalGrows(sectors, n, m);
        assert offset + Total(sectors, n) == Total(sectors, n);
      }
    }
  }

  /** For any table, first offset and bootloader: the end of the reserve cuts no sector exactly when the shortest
      prefix of sectors that holds the bootloader, counted from the flash base, ends between sectors. */
  lemma NoSectorIsCutExactly(geo: FlashGeometry, groups: seq<Group>, bootloader: U32)
    requires Expanded(geo, groups) && Needed(geo, bootloader).Ok?
    ensures CutsNone(geo, geo.base + Needed(geo, bootloader).value.reserve)
            <==> forall n: nat :: ShortestFit(geo.sectors, bootloader, n) ==>
                                    EndsBetween(geo.sectors, FirstOffset(groups), n)
  {
    SectorsAt(geo, groups, bootloader, 0);
    HasSectors(geo, groups);
    var n := ReserveIsShortestFit(geo, bootloader);
    CutsNoneByReserve(geo, groups, bootloader);
    WholeBeyondAt(geo.sectors, FirstOffset(groups), n);
  }

  lemma HasSectors(geo: FlashGeometry, groups: seq<Group>)
    requires Expanded(geo, groups)
    ensures geo.sectors != []
  {
    var _ := ExpansionEnd(geo.base, geo.size, groups);
  }

  /** With the first group at offset zero, a layout exists exactly when the bootloader is no larger than the
      flash, and no sector is shared: each lies wholly below the end of the reserve or wholly at or above it. */
  lemma NoSectorIsShared(geo: FlashGeometry, groups: seq<Group>, bootloader: U32)
    requires Expanded(geo, groups) && FirstOffset(groups) == 0
    ensures Needed(geo, bootloader).Ok? <==> bootloader <= geo.size
    ensures Needed(geo, bootloader).Ok? ==> CutsNone(geo, geo.base + Needed(geo, bootloader).value.reserve)
  {
    SectorsAt(geo, groups, bootloader, 0);
    if Needed(geo, bootloader).Ok? {
      var n := ReserveStops(geo.sectors, bootloader, 0, 0);
      assert 0 + Total(geo.sectors, n) == Needed(geo, bootloader).value.reserve;
      CutsNoneByReserve(geo, groups, bootloader);
    }
  }

  /** A first offset inside the first sector's size always cuts that sector, for every bootloader it holds. */
  lemma SmallOffsetCuts(geo: FlashGeometry, groups: seq<Group>, bootloader: U32)
    requires Expanded(geo, groups) && geo.sectors != []
    requires 0 < FirstOffset(groups) < geo.sectors[0].size && bootloader <= geo.sectors[0].size
    ensures Needed(geo, bootloader).Ok?
            && Cuts(geo, geo.base + Needed(geo, bootloader).value.reserve, 0)
  {
    SectorsAt(geo, groups, bootloader, 0);
    assert Total(geo.sectors, 1) == geo.sectors[0].size;
    TotalGrows(geo.sectors, 1, |geo.sectors|);
    LayoutIsShortestFit(geo, bootloader);
    var n := ReserveStops(geo.sectors, bootloader, 0, 0);
  }

  /** The stored application address is the end of the reserve exactly when some prefix of sectors holds the
      bootloader and ends below 2^32. */
  lemma AppStartExactly(geo: FlashGeometry, bootloader: U32)
    requires Sized(geo) && Needed(geo, bootloader).Ok? && geo.sectors != []
    ensures Needed(geo, bootloader).value.appStart == geo.base + Needed(geo, bootloader).value.reserve
            <==> exists n: nat :: 0 < n <= |geo.sectors| && bootloader <= Total(geo.sectors, n)
                                  && geo.base + Total(geo.sectors, n) <= U32_MAX
  {
    var k := ReserveIsShortestFit(geo, bootloader);
    AsU32Exactly(geo.base + Total(geo.sectors, k));
    forall n: nat | 0 < n <= |geo.sectors| && bootloader <= Total(geo.sectors, n)
      ensures Total(geo.sectors, k) <= Total(geo.sectors, n)
    {
      if k <= n {
        TotalGrows(geo.sectors, k, n);
      }
    }
  }

  /** One sector of `n` bytes behind `offset` bytes. */
  function OneSector(base: U32, offset: U32, n: U32): FlashGeometry
    requires base + offset <= U32_MAX && offset + n <= U32_MAX
  {
    FlashGeometry(base, offset + n, [SectorInfo(base + offset, n)])
  }

  lemma OneSectorExpanded(base: U32, offset: U32, n: U32)
    requires base + offset <= U32_MAX && offset + n <= U32_MAX && n > 0
    ensures Expanded(OneSector(base, offset, n), [Group(offset, n)]) && FirstOffset([Group(offset, n)]) == offset
  {
    var groups, s := [Group(offset, n)], [Sector(base + offset, n)];
    assert SortByAddress(groups) == groups;
    assert Sectors(base + offset, base + offset + n, n) == s;
    assert Collect(base, offset + n, groups, 0) == Ok(s + []) by {
      StepDown(n, n);
    }
    assert s + [] == s;
    AsU32Exactly(base + offset);
    AsU32Exactly(n);
    assert Stored(s) == [SectorInfo(base + offset, n)];
  }

  /** Sectors are cut, at every base: one sector behind fewer bytes than it has, and any bootloader that fits. */
  lemma CutOccurs(base: U32, offset: U32, n: U32, bootloader: U32)
    requires base + offset <= U32_MAX && 0 < offset < n && offset + n <= U32_MAX && bootloader <= n
    ensures var geo := OneSector(base, offset, n);
      && Expanded(geo, [Group(offset, n)]) && Needed(geo, bootloader).Ok?
      && !CutsNone(geo, base + Needed(geo, bootloader).value.reserve)
  {
    var geo := OneSector(base, offset, n);
    OneSectorExpanded(base, offset, n);
    SmallOffsetCuts(geo, [Group(offset, n)], bootloader);
  }

  /** The application address wraps: for any bootloader in a flash of one sector that ends at 2^32 it is zero. */
  lemma AppStartWraps(base: U32, n: U32, bootloader: U32)
    requires base + n == U32_MAX + 1 && bootloader <= n
    ensures var geo := OneSector(base, 0, n);
      && Expanded(geo, [Group(0, n)]) && Needed(geo, bootloader).Ok?
      && Needed(geo, bootloader).value.reserve == n && Needed(geo, bootloader).value.appStart == 0
  {
    OneSectorExpanded(base, 0, n);
  }

  // ---------- the lock ----------

  function LockFor(geo: FlashGeometry, bootloader: U32, layout: FlashLayout): LayoutLock {
    LayoutLock(1, geo.base, layout.reserve, layout.appStart, bootloader)
  }

  function LayoutOf(lock: LayoutLock): FlashLayout { FlashLayout(lock.base, lock.reserve, lock.appStart) }

  /** The lock after `resolve_layout_with_lock`, and its answer. */
  function Resolved(lock: Option<LayoutLock>, geo: FlashGeometry, bootloader: U32, mode: ReserveMode)
    : (Option<LayoutLock>, Result<FlashLayout, LayoutError>)
  {
    match Needed(geo, bootloader)
    case Err(e) => (lock, Err(e))
    case Ok(needed) =>
      var grown := Some(LockFor(geo, bootloader, needed));
      match lock
      case None => (grown, Ok(needed))
      case Some(l) =>
        if needed.reserve <= l.reserve then (lock, Ok(LayoutOf(l)))
        else if mode.Auto? then (grown, Ok(needed))
        else (lock, Err(ExceedsFixedReserve))
  }

  /** Whatever the lock, geometry and mode: an answer is the layout of the lock left behind and holds the
      bootloader; a refusal leaves the lock alone; the reserve never shrinks. */
  lemma ResolvedIsLocked(lock: Option<LayoutLock>, geo: FlashGeometry, bootloader: U32, mode: ReserveMode)
    ensures var (next, r) := Resolved(lock, geo, bootloader, mode);
            && (r.Ok? ==> next.Some? && r.value == LayoutOf(next.value) && ValidateLayout(r.value, bootloader))
            && (r.Err? ==> next == lock)
            && (lock.Some? ==> next.Some? && lock.value.reserve <= next.value.reserve)
  {
  }

  /** A layout that is needed is refused exactly when a fixed lock is too small for it; an existing lock moves
      exactly when an automatic one is. */
  lemma LockMovesExactly(l: LayoutLock, geo: FlashGeometry, bootloader: U32, mode: ReserveMode)
    requires Needed(geo, bootloader).Ok?
    ensures var (next, r) := Resolved(Some(l), geo, bootloader, mode);
            && (r == Err(ExceedsFixedReserve) <==> mode.Fixed? && Needed(geo, bootloader).value.reserve > l.reserve)
            && (r.Err? ==> r == Err(ExceedsFixedReserve))
            && (next != Some(l) <==> mode.Auto? && Needed(geo, bootloader).value.reserve > l.reserve)
  {
  }

  /** A lock written for a request: its schema, its geometry's base and its bootloader, with the layout it needs. */
  predicate Records(l: LayoutLock, geo: FlashGeometry, bootloader: U32) {
    && l.version == 1 && l.base == geo.base && l.computedFrom == bootloader
    && Needed(geo, bootloader) == Ok(FlashLayout(l.base, l.reserve, l.appStart))
  }

  /** Without a lock every bootloader that fits is answered, in either mode, and the lock is written for it. */
  lemma FirstLock(geo: FlashGeometry, bootloader: U32, mode: ReserveMode)
    requires Sized(geo)
    ensures var (next, r) := Resolved(None, geo, bootloader, mode);
      && (r.Ok? <==> bootloader <= Total(geo.sectors, |geo.sectors|))
      && (next.Some? <==> r.Ok?) && (next.Some? ==> Records(next.value, geo, bootloader))
  {
    LayoutIsShortestFit(geo, bootloader);
  }

  /** A lock that moves is written anew for the request that moves it. */
  lemma MovedLockRecords(l: LayoutLock, geo: FlashGeometry, bootloader: U32, mode: ReserveMode)
    requires Resolved(Some(l), geo, bootloader, mode).0 != Some(l)
    ensures var (next, r) := Resolved(Some(l), geo, bootloader, mode);
      next.Some? && Records(next.value, geo, bootloader) && r == Needed(geo, bootloader)
  {
    LayoutStartsAtBase(geo, bootloader);
  }

  lemma LayoutStartsAtBase(geo: FlashGeometry, bootloader: U32)
    ensures Needed(geo, bootloader).Ok? ==> Needed(geo, bootloader).value.bootloaderStart == geo.base
  {
  }

  /** An answer starts at the base of the geometry asked about exactly when the lock was recorded for that base or
      had to grow: a lock for another base that is large enough is handed out as it is. */
  lemma LockedBaseExactly(l: LayoutLock, geo: FlashGeometry, bootloader: U32, mode: ReserveMode)
    requires Resolved(Some(l), geo, bootloader, mode).1.Ok?
    ensures Needed(geo, bootloader).Ok?
    ensures Resolved(Some(l), geo, bootloader, mode).1.value.bootloaderStart == geo.base
            <==> l.base == geo.base || Needed(geo, bootloader).value.reserve > l.reserve
  {
  }

  /** That happens: a board locked for one sector at one base, asked again for the same sector at another. */
  lemma ForeignLockIsUsed(base: U32, other: U32, n: U32, bootloader: U32, mode: ReserveMode)
    requires base + n <= U32_MAX && other + n <= U32_MAX && base != other && bootloader <= n
    ensures var locked := Resolved(None, OneSector(base, 0, n), bootloader, mode).0;
      && locked.Some?
      && Resolved(locked, OneSector(other, 0, n), bootloader, mode).1
         == Ok(FlashLayout(base, n, base + n))
  {
    AddFits(base, n);
    NeedsItsSector(base, n, bootloader);
    NeedsItsSector(other, n, bootloader);
  }

  lemma NeedsItsSector(base: U32, n: U32, bootloader: U32)
    requires base + n <= U32_MAX && bootloader <= n
    ensures Needed(OneSector(base, 0, n), bootloader) == Ok(FlashLayout(base, n, base + n))
  {
    AddFits(base, n);
    AddFits(0, n);
  }

  datatype Request = Request(geo: FlashGeometry, bootloader: U32, mode: ReserveMode)

  function After(lock: Option<LayoutLock>, rs: seq<Request>, k: nat): Option<LayoutLock>
    requires k <= |rs|
  {
    if k == 0 then lock
    else Resolved(After(lock, rs, k - 1), rs[k - 1].geo, rs[k - 1].bootloader, rs[k - 1].mode).0
  }

  /** Over any run: reserves only grow, and only an Auto request can change an existing lock. */
  lemma {:induction false} LockOnlyGrows(lock: Option<LayoutLock>, rs: seq<Request>, j: nat, k: nat)
    requires j <= k <= |rs| && After(lock, rs, j).Some?
    ensures After(lock, rs, k).Some? && After(lock, rs, j).value.reserve <= After(lock, rs, k).value.reserve
    ensures (forall i :: j <= i < k ==> rs[i].mode.Fixed?) ==> After(lock, rs, k) == After(lock, rs, j)
  {
    if j < k {
      LockOnlyGrows(lock, rs, j, k - 1);
    }
  }

  ghost predicate AutoRun(geo: FlashGeometry, rs: seq<Request>) {
    forall i :: 0 <= i < |rs| ==> rs[i].geo == geo && rs[i].mode.Auto?
  }

  predicate Fits(geo: FlashGeometry, bootloader: U32) { Needed(geo, bootloader).Ok? }

  function Need(geo: FlashGeometry, bootloader: U32): U32
    requires Fits(geo, bootloader)
  {
    Needed(geo, bootloader).value.reserve
  }

  /** Request `i`, if it fits, needs no more than request `j`, and strictly less if it comes first. */
  predicate NoMoreThan(geo: FlashGeometry, rs: seq<Request>, j: nat, i: nat)
    requires i < |rs| && j < |rs| && Fits(geo, rs[j].bootloader)
  {
    Fits(geo, rs[i].bootloader) ==>
      if i < j then Need(geo, rs[i].bootloader) < Need(geo, rs[j].bootloader)
      else Need(geo, rs[i].bootloader) <= Need(geo, rs[j].bootloader)
  }

  /** The first request among the first `k` that needs as much as any of them. */
  ghost predicate FirstToNeedMost(geo: FlashGeometry, rs: seq<Request>, k: nat, j: nat)
    requires k <= |rs|
  {
    j < k && Fits(geo, rs[j].bootloader) && forall i :: 0 <= i < k ==> NoMoreThan(geo, rs, j, i)
  }

  /** The lock names that request's bootloader and holds its layout. */
  ghost predicate ExplainedBy(geo: FlashGeometry, rs: seq<Request>, k: nat, l: LayoutLock, j: nat)
    requires k <= |rs|
  {
    FirstToNeedMost(geo, rs, k, j) && Records(l, geo, rs[j].bootloader)
  }

  ghost predicate Explained(geo: FlashGeometry, rs: seq<Request>, k: nat, lock: Option<LayoutLock>)
    requires k <= |rs|
  {
    match lock
    case None => forall i :: 0 <= i < k ==> !Fits(geo, rs[i].bootloader)
    case Some(l) => exists j: nat :: ExplainedBy(geo, rs, k, l, j)
  }

  lemma LatestNeedsMost(geo: FlashGeometry, rs: seq<Request>, k: nat, j: nat)
    requires k < |rs| && FirstToNeedMost(geo, rs, k, j) && Fits(geo, rs[k].bootloader)
    requires Need(geo, rs[j].bootloader) < Need(geo, rs[k].bootloader)
    ensures FirstToNeedMost(geo, rs, k + 1, k)
  {
    forall i | 0 <= i < k ensures NoMoreThan(geo, rs, k, i) {
      assert NoMoreThan(geo, rs, j, i);
    }
  }

  lemma {:induction false} LockIsExplained(geo: FlashGeometry, rs: seq<Request>, k: nat)
    requires AutoRun(geo, rs) && k <= |rs|
    ensures Explained(geo, rs, k, After(None, rs, k))
  {
    if k == 0 {
    } else {
      LockIsExplained(geo, rs, k - 1);
      var before, b := After(None, rs, k - 1), rs[k - 1].bootloader;
      if before.Some? {
        var j: nat :| ExplainedBy(geo, rs, k - 1, before.value, j);
        if Fits(geo, b) && Need(geo, b) > before.value.reserve {
          LatestNeedsMost(geo, rs, k - 1, j);
          assert ExplainedBy(geo, rs, k, After(None, rs, k).value, k - 1);
        } else {
          assert ExplainedBy(geo, rs, k, before.value, j);
        }
      } else if Fits(geo, b) {
        assert ExplainedBy(geo, rs, k, After(None, rs, k).value, k - 1);
      }
    }
  }

  /** Over an Auto run on one geometry that starts without a lock, the lock holds the layout of the largest
      bootloader that fitted so far, and there is one as soon as any fitted. */
  lemma LockIsForLargest(geo: FlashGeometry, rs: seq<Request>, k: nat, largest: nat)
    requires Sized(geo) && AutoRun(geo, rs) && largest < k <= |rs| && Fits(geo, rs[largest].bootloader)
    requires forall i :: 0 <= i < k && Fits(geo, rs[i].bootloader) ==> rs[i].bootloader <= rs[largest].bootloader
    ensures After(None, rs, k).Some?
            && LayoutOf(After(None, rs, k).value) == Needed(geo, rs[largest].bootloader).value
  {
    LockIsExplained(geo, rs, k);
    var l := After(None, rs, k).value;
    var j: nat :| ExplainedBy(geo, rs, k, l, j);
    assert NoMoreThan(geo, rs, j, largest);
    NeededMonotone(geo, rs[j].bootloader, rs[largest].bootloader);
  }

  /** The board directory that holds the lock file. */
  class Board {
    var lock: Option<LayoutLock>

    constructor ()
      ensures lock == None
    {
      lock := None;
    }

    method ResolveLayoutWithLock(geo: FlashGeometry, bootloader: U32, mode: ReserveMode)
      returns (r: Result<FlashLayout, LayoutError>)
      modifies this
      ensures (lock, r) == Resolved(old(lock), geo, bootloader, mode)
    {
      var computed := ComputeLayout(geo, bootloader);
      if computed.Err? {
        return Err(computed.error);
      }
      var needed := computed.value;
      if lock.Some? {
        var existing := lock.value;
        if needed.reserve <= existing.reserve {
          return Ok(FlashLayout(existing.base, existing.reserve, existing.appStart));
        }
        match mode {
          case Auto =>
            lock := Some(LayoutLock(1, geo.base, needed.reserve, needed.appStart, bootloader));
            return Ok(needed);
          case Fixed =>
            return Err(ExceedsFixedReserve);
        }
      }
      lock := Some(LayoutLock(1, geo.base, needed.reserve, needed.appStart, bootloader));
      return Ok(needed);
    }

    /** A whole run of requests. */
    method ResolveAll(rs: seq<Request>)
      modifies this
      ensures lock == After(old(lock), rs, |rs|)
    {
      for k := 0 to |rs|
        invariant lock == After(old(lock), rs, k)
      {
        var _ := ResolveLayoutWithLock(rs[k].geo, rs[k].bootloader, rs[k].mode);
      }
    }
  }
}
