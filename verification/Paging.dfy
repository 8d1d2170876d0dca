/** Newest-first keyset pagination over (slot, event_key): ordering, limiting,
    merging two limited branches, and walking pages by cursor. */
module Paging {
  import opened Options
  import opened TextOrder
  import opened Sequences

  datatype Position = Position(slot: nat, key: Text)

  /** `(a.slot,a.event_key) < (b.slot,b.event_key)`. */
  predicate Less(a: Position, b: Position) {
    a.slot < b.slot || (a.slot == b.slot && Before(a.key, b.key))
  }

  lemma {:induction false} LessIsTotal(a: Position, b: Position)
    ensures Less(a, b) || a == b || Less(b, a)
  {
    BeforeIsTotal(a.key, b.key);
  }

  lemma {:induction false} LessIsTransitive(a: Position, b: Position, c: Position)
    requires Less(a, b) && Less(b, c)
    ensures Less(a, c)
  {
    if a.slot == b.slot == c.slot {
      BeforeIsTransitive(a.key, b.key, c.key);
    }
  }

  lemma {:induction false} LessIsIrreflexive(a: Position)
    ensures !Less(a, a)
  {
    BeforeIsIrreflexive(a.key);
  }

  // ----- ORDER BY slot DESC, event_key DESC -----

  ghost predicate Descends(ps: seq<Position>) {
    forall i, j :: 0 <= i < j < |ps| ==> Less(ps[j], ps[i])
  }

  ghost function Elements(ps: seq<Position>): set<Position> {
    set p | p in ps
  }

  ghost predicate IsGreatest(m: Position, s: set<Position>) {
    m in s && forall p :: p in s && p != m ==> Less(p, m)
  }

  lemma {:induction false} GreatestExists(s: set<Position>)
    requires s != {}
    ensures exists m :: IsGreatest(m, s)
    decreases s
  {
    var m :| m in s;
    if s == {m} {
      assert IsGreatest(m, s);
    } else {
      GreatestExists(s - {m});
      var n :| IsGreatest(n, s - {m});
      LessIsTotal(m, n);
      if Less(m, n) {
        assert IsGreatest(n, s);
      } else {
        forall p | p in s && p != m && p != n ensures Less(p, m) {
          LessIsTransitive(p, n, m);
        }
        assert IsGreatest(m, s);
      }
    }
  }

  ghost function Greatest(s: set<Position>): (m: Position)
    requires s != {}
    ensures IsGreatest(m, s)
  {
    GreatestExists(s);
    var m :| IsGreatest(m, s);
    m
  }

  lemma {:induction false} ConsDescends(m: Position, rest: seq<Position>, s: set<Position>)
    requires IsGreatest(m, s) && Descends(rest) && Elements(rest) == s - {m}
    ensures Descends([m] + rest) && Elements([m] + rest) == s
  {
    var all := [m] + rest;
    forall j | 0 <= j < |rest| ensures Less(rest[j], m) {
      assert rest[j] in Elements(rest);
    }
    forall p ensures p in all <==> p in s {
      assert p in Elements(rest) <==> p in rest;
    }
  }

  ghost function Descending(s: set<Position>): (ps: seq<Position>)
    ensures Descends(ps) && Elements(ps) == s && |ps| == |s|
    decreases s
  {
    if s == {} then []
    else
      var m := Greatest(s);
      var rest := Descending(s - {m});
      ConsDescends(m, rest, s);
      [m] + rest
  }

  lemma {:induction false} DescendingTail(a: seq<Position>)
    requires Descends(a) && a != []
    ensures Descends(a[1..]) && Elements(a[1..]) == Elements(a) - {a[0]}
  {
    forall p | p in a[1..] ensures p != a[0] {
      LessIsIrreflexive(p);
    }
    forall p | p in a && p != a[0] ensures p in a[1..] {
    }
  }

  lemma {:induction false} SameHead(a: seq<Position>, b: seq<Position>)
    requires Descends(a) && Descends(b) && Elements(a) == Elements(b) && a != [] && b != []
    ensures a[0] == b[0]
  {
    assert a[0] in Elements(b) && b[0] in Elements(a);
    if a[0] != b[0] {
      LessIsTransitive(a[0], b[0], a[0]);
      LessIsIrreflexive(a[0]);
    }
  }

  /** The order of a set of positions is unique. */
  lemma {:induction false} DescentIsUnique(a: seq<Position>, b: seq<Position>)
    requires Descends(a) && Descends(b) && Elements(a) == Elements(b)
    ensures a == b
  {
    assert a != [] ==> a[0] in Elements(a);
    assert b != [] ==> b[0] in Elements(b);
    if a != [] && b != [] {
      SameHead(a, b);
      DescendingTail(a);
      DescendingTail(b);
      DescentIsUnique(a[1..], b[1..]);
      assert a == [a[0]] + a[1..] && b == [b[0]] + b[1..];
    }
  }

  // ----- ORDER BY over UNION ALL -----

  /** Two ordered lists in one order; an element of both stays twice. */
  function Merge(a: seq<Position>, b: seq<Position>): seq<Position>
    decreases |a| + |b|
  {
    if a == [] then b
    else if b == [] then a
    else if Less(a[0], b[0]) then [b[0]] + Merge(a, b[1..])
    else [a[0]] + Merge(a[1..], b)
  }

  lemma {:induction false} MergeElements(a: seq<Position>, b: seq<Position>)
    ensures Elements(Merge(a, b)) == Elements(a) + Elements(b)
    decreases |a| + |b|
  {
    if a != [] && b != [] {
      if Less(a[0], b[0]) {
        MergeElements(a, b[1..]);
        assert Elements(b) == {b[0]} + Elements(b[1..]);
        ConsElements(b[0], Merge(a, b[1..]));
      } else {
        MergeElements(a[1..], b);
        assert Elements(a) == {a[0]} + Elements(a[1..]);
        ConsElements(a[0], Merge(a[1..], b));
      }
    }
  }

  lemma {:induction false} ConsElements(p: Position, ps: seq<Position>)
    ensures Elements([p] + ps) == {p} + Elements(ps)
  {
  }

  ghost predicate AllLess(ps: seq<Position>, p: Position) {
    forall i :: 0 <= i < |ps| ==> Less(ps[i], p)
  }

  lemma {:induction false} TailAllLess(a: seq<Position>, p: Position)
    requires Descends(a) && (a == [] || Less(a[0], p))
    ensures AllLess(a, p)
  {
    forall i | 0 < i < |a| ensures Less(a[i], p) {
      LessIsTransitive(a[i], a[0], p);
    }
  }

  lemma {:induction false} MergeAllLess(a: seq<Position>, b: seq<Position>, p: Position)
    requires AllLess(a, p) && AllLess(b, p)
    ensures AllLess(Merge(a, b), p)
  {
    var m := Merge(a, b);
    MergeElements(a, b);
    forall i | 0 <= i < |m| ensures Less(m[i], p) {
      assert m[i] in Elements(m);
    }
  }

  lemma {:induction false} MergeDescends(a: seq<Position>, b: seq<Position>)
    requires Descends(a) && Descends(b) && Elements(a) !! Elements(b)
    ensures Descends(Merge(a, b))
    decreases |a| + |b|
  {
    if a != [] && b != [] {
      assert a[0] in Elements(a) && b[0] in Elements(b);
      LessIsTotal(a[0], b[0]);
      if Less(a[0], b[0]) {
        DescendingTail(b);
        MergeDescends(a, b[1..]);
        TailAllLess(a, b[0]);
        TailAllLess(b[1..], b[0]);
        MergeAllLess(a, b[1..], b[0]);
      } else {
        DescendingTail(a);
        MergeDescends(a[1..], b);
        TailAllLess(b, a[0]);
        TailAllLess(a[1..], a[0]);
        MergeAllLess(a[1..], b, a[0]);
      }
    }
  }

  lemma {:induction false} MergeIsUnion(s: set<Position>, t: set<Position>)
    requires s !! t
    ensures Merge(Descending(s), Descending(t)) == Descending(s + t)
  {
    MergeDescends(Descending(s), Descending(t));
    MergeElements(Descending(s), Descending(t));
    DescentIsUnique(Merge(Descending(s), Descending(t)), Descending(s + t));
  }

  /** The limit can be pushed into the branches. */
  lemma {:induction false} LimitBranches(a: seq<Position>, b: seq<Position>, k: nat, l: nat, n: nat)
    requires n <= k && n <= l
    ensures Take(Merge(Take(a, k), Take(b, l)), n) == Take(Merge(a, b), n)
    decreases n
  {
    hide Merge, Take, Less;
    var ta, tb := Take(a, k), Take(b, l);
    if n == 0 || a == [] || b == [] {
      LimitOneBranch(a, b, k, l, n);
    } else {
      TakeTail(a, k);
      TakeTail(b, l);
      MergeNext(a, b);
      MergeNext(ta, tb);
      if Less(a[0], b[0]) {
        LimitBranches(a, b[1..], k, l - 1, n - 1);
        TakeCons(b[0], Merge(ta, tb[1..]), n);
        TakeCons(b[0], Merge(a, b[1..]), n);
      } else {
        LimitBranches(a[1..], b, k - 1, l, n - 1);
        TakeCons(a[0], Merge(ta[1..], tb), n);
        TakeCons(a[0], Merge(a[1..], b), n);
      }
    }
  }

  lemma {:induction false} LimitOneBranch(a: seq<Position>, b: seq<Position>, k: nat, l: nat, n: nat)
    requires n <= k && n <= l && (n == 0 || a == [] || b == [])
    ensures Take(Merge(Take(a, k), Take(b, l)), n) == Take(Merge(a, b), n)
  {
    if n == 0 {
      hide Merge;
    } else if a == [] {
      assert Take(a, k) == [];
    } else {
      assert Take(b, l) == [] && Merge(a, b) == a && Merge(Take(a, k), []) == Take(a, k);
    }
  }

  lemma {:induction false} TakeTail(ps: seq<Position>, n: nat)
    requires n > 0 && ps != []
    ensures Take(ps, n) != [] && Take(ps, n)[0] == ps[0] && Take(ps, n)[1..] == Take(ps[1..], n - 1)
  {
  }

  lemma {:induction false} MergeNext(a: seq<Position>, b: seq<Position>)
    requires a != [] && b != []
    ensures Merge(a, b) == if Less(a[0], b[0]) then [b[0]] + Merge(a, b[1..]) else [a[0]] + Merge(a[1..], b)
  {
    hide Less;
  }

  lemma {:induction false} TakeCons(p: Position, ps: seq<Position>, n: nat)
    requires n > 0
    ensures Take([p] + ps, n) == [p] + Take(ps, n - 1)
  {
  }

  // ----- one page below a cursor -----

  ghost function Below(s: set<Position>, cursor: Option<Position>): set<Position> {
    if cursor.None? then s else set p | p in s && Less(p, cursor.value)
  }

  ghost function Page(s: set<Position>, cursor: Option<Position>, limit: nat): seq<Position> {
    Take(Descending(Below(s, cursor)), limit)
  }

  ghost predicate HasMore(s: set<Position>, cursor: Option<Position>, limit: nat) {
    |Below(s, cursor)| > limit
  }

  /** `rows.slice(0, limit)` and `rows.length > limit` of a query for limit + 1. */
  lemma {:induction false} OneExtraRowDecides(s: set<Position>, cursor: Option<Position>, limit: nat)
    ensures var rows := Take(Descending(Below(s, cursor)), limit + 1);
            Take(rows, limit) == Page(s, cursor, limit) && (|rows| > limit <==> HasMore(s, cursor, limit))
  {
    hide Below, Descending;
  }

  lemma {:induction false} PageFacts(s: set<Position>, cursor: Option<Position>, limit: nat)
    ensures var page := Page(s, cursor, limit);
            && Descends(page) && Elements(page) <= Below(s, cursor)
            && (HasMore(s, cursor, limit) ==> |page| == limit)
            && (!HasMore(s, cursor, limit) ==> page == Descending(Below(s, cursor)))
  {
    var all := Descending(Below(s, cursor));
    assert forall p :: p in Page(s, cursor, limit) ==> p in all && p in Elements(all);
  }

  /** What a page leaves out lies below its last row. */
  lemma {:induction false} PageSplits(s: set<Position>, cursor: Option<Position>, limit: nat, p: Position)
    requires p in Below(s, cursor) && limit > 0
    ensures var page := Page(s, cursor, limit);
            p in page || (HasMore(s, cursor, limit) && |page| == limit && Less(p, page[limit - 1]))
  {
    var all := Descending(Below(s, cursor));
    assert p in Elements(all);
    var i :| 0 <= i < |all| && all[i] == p;
    if i < limit {
      assert Page(s, cursor, limit)[i] == p;
    }
  }

  // ----- walking -----

  ghost function NextCursor(s: set<Position>, cursor: Option<Position>, limit: nat): Option<Position>
    requires limit > 0 && HasMore(s, cursor, limit)
  {
    PageFacts(s, cursor, limit);
    Some(Page(s, cursor, limit)[limit - 1])
  }

  ghost predicate Positive(limits: seq<nat>) {
    forall i :: 0 <= i < |limits| ==> limits[i] > 0
  }

  /** Following `nextCursor`: page k reads the k-th snapshot with the k-th limit. */
  ghost function Walk(snapshots: seq<set<Position>>, limits: seq<nat>, cursor: Option<Position>): seq<Position>
    requires |snapshots| == |limits| && Positive(limits)
    decreases |snapshots|
  {
    if snapshots == [] then []
    else
      Page(snapshots[0], cursor, limits[0])
      + if HasMore(snapshots[0], cursor, limits[0])
        then Walk(snapshots[1..], limits[1..], NextCursor(snapshots[0], cursor, limits[0])) else []
  }

  /** The walk reaches a page without a next cursor. */
  ghost predicate Finishes(snapshots: seq<set<Position>>, limits: seq<nat>, cursor: Option<Position>)
    requires |snapshots| == |limits| && Positive(limits)
    decreases |snapshots|
  {
    snapshots != []
    && (HasMore(snapshots[0], cursor, limits[0]) ==>
          Finishes(snapshots[1..], limits[1..], NextCursor(snapshots[0], cursor, limits[0])))
  }

  ghost predicate UnderCursor(ps: seq<Position>, cursor: Option<Position>) {
    cursor.Some? ==> forall i :: 0 <= i < |ps| ==> Less(ps[i], cursor.value)
  }

  lemma {:induction false} DescendsThenBelow(a: seq<Position>, b: seq<Position>, cursor: Option<Position>)
    requires Descends(a) && Descends(b) && a != []
    requires UnderCursor(a, cursor) && UnderCursor(b, Some(a[|a| - 1]))
    ensures Descends(a + b) && UnderCursor(a + b, cursor)
  {
    var last := a[|a| - 1];
    forall i, j | 0 <= i < |a| && 0 <= j < |b| ensures Less(b[j], a[i]) {
      if i < |a| - 1 {
        LessIsTransitive(b[j], last, a[i]);
      }
    }
    if cursor.Some? {
      forall j | 0 <= j < |b| ensures Less(b[j], cursor.value) {
        LessIsTransitive(b[j], last, cursor.value);
      }
    }
  }

  lemma {:induction false} PageUnderCursor(s: set<Position>, cursor: Option<Position>, limit: nat)
    ensures Descends(Page(s, cursor, limit)) && UnderCursor(Page(s, cursor, limit), cursor)
    ensures HasMore(s, cursor, limit) ==> |Page(s, cursor, limit)| == limit
  {
    var page := Page(s, cursor, limit);
    PageFacts(s, cursor, limit);
    forall i | 0 <= i < |page| ensures cursor.Some? ==> Less(page[i], cursor.value) {
      assert page[i] in Elements(page);
    }
  }

  /** Whatever happens to the table between pages, a walk goes strictly down: no
      position is ever returned twice. */
  lemma {:induction false} WalkDescends(snapshots: seq<set<Position>>, limits: seq<nat>, cursor: Option<Position>)
    requires |snapshots| == |limits| && Positive(limits)
    ensures Descends(Walk(snapshots, limits, cursor)) && UnderCursor(Walk(snapshots, limits, cursor), cursor)
    decreases |snapshots|
  {
    hide Page, HasMore, Less;
    if snapshots != [] {
      var page := Page(snapshots[0], cursor, limits[0]);
      PageUnderCursor(snapshots[0], cursor, limits[0]);
      if HasMore(snapshots[0], cursor, limits[0]) {
        var next := NextCursor(snapshots[0], cursor, limits[0]);
        WalkDescends(snapshots[1..], limits[1..], next);
        DescendsThenBelow(page, Walk(snapshots[1..], limits[1..], next), cursor);
      } else {
        assert page + [] == page;
      }
    }
  }

  /** Only positions some page's snapshot held are returned. */
  lemma {:induction false} WalkReturnsHeld(snapshots: seq<set<Position>>, limits: seq<nat>, cursor: Option<Position>,
                                           p: Position)
    requires |snapshots| == |limits| && Positive(limits) && p in Walk(snapshots, limits, cursor)
    ensures exists k :: 0 <= k < |snapshots| && p in snapshots[k]
    decreases |snapshots|
  {
    PageFacts(snapshots[0], cursor, limits[0]);
    if p in Page(snapshots[0], cursor, limits[0]) {
      assert p in Elements(Page(snapshots[0], cursor, limits[0]));
      assert p in snapshots[0];
    } else {
      WalkReturnsHeld(snapshots[1..], limits[1..], NextCursor(snapshots[0], cursor, limits[0]), p);
      var k :| 0 <= k < |snapshots[1..]| && p in snapshots[1..][k];
      assert p in snapshots[k + 1];
    }
  }

  /** A position that every page's snapshot holds is returned. */
  lemma {:induction false} WalkReturnsLasting(snapshots: seq<set<Position>>, limits: seq<nat>,
                                              cursor: Option<Position>, p: Position)
    requires |snapshots| == |limits| && Positive(limits) && Finishes(snapshots, limits, cursor)
    requires forall k :: 0 <= k < |snapshots| ==> p in snapshots[k]
    requires cursor.Some? ==> Less(p, cursor.value)
    ensures p in Walk(snapshots, limits, cursor)
    decreases |snapshots|
  {
    assert p in Below(snapshots[0], cursor);
    PageSplits(snapshots[0], cursor, limits[0], p);
    PageFacts(snapshots[0], cursor, limits[0]);
    if p !in Page(snapshots[0], cursor, limits[0]) {
      WalkReturnsLasting(snapshots[1..], limits[1..], NextCursor(snapshots[0], cursor, limits[0]), p);
    }
  }

  ghost predicate Frozen(snapshots: seq<set<Position>>, s: set<Position>) {
    forall k :: 0 <= k < |snapshots| ==> snapshots[k] == s
  }

  /** Over one set, a finished walk is the set in order, for any limits. */
  lemma {:induction false} FrozenWalkIsWhole(snapshots: seq<set<Position>>, limits: seq<nat>, s: set<Position>)
    requires |snapshots| == |limits| && Positive(limits) && Finishes(snapshots, limits, None) && Frozen(snapshots, s)
    ensures Walk(snapshots, limits, None) == Descending(s)
  {
    var ps := Walk(snapshots, limits, None);
    WalkDescends(snapshots, limits, None);
    forall p ensures p in ps <==> p in s {
      if p in ps {
        WalkReturnsHeld(snapshots, limits, None, p);
      } else if p in s {
        WalkReturnsLasting(snapshots, limits, None, p);
      }
    }
    assert Elements(ps) == s;
    DescentIsUnique(ps, Descending(s));
  }

  lemma {:induction false} NextCursorShrinks(s: set<Position>, cursor: Option<Position>, limit: nat)
    requires limit > 0 && HasMore(s, cursor, limit)
    ensures Below(s, NextCursor(s, cursor, limit)) < Below(s, cursor)
  {
    PageFacts(s, cursor, limit);
    var last := NextCursor(s, cursor, limit).value;
    assert last in Elements(Page(s, cursor, limit));
    LessIsIrreflexive(last);
    if cursor.Some? {
      forall p | p in s && Less(p, last) ensures Less(p, cursor.value) {
        LessIsTransitive(p, last, cursor.value);
      }
    }
  }

  /** Every walk over one set ends, after at most one page per position and one more. */
  lemma {:induction false} FrozenWalkFinishes(snapshots: seq<set<Position>>, limits: seq<nat>, s: set<Position>,
                                              cursor: Option<Position>)
    requires |snapshots| == |limits| && Positive(limits) && Frozen(snapshots, s)
    requires |snapshots| > |Below(s, cursor)|
    ensures Finishes(snapshots, limits, cursor)
    decreases |snapshots|
  {
    if HasMore(snapshots[0], cursor, limits[0]) {
      var next := NextCursor(s, cursor, limits[0]);
      NextCursorShrinks(s, cursor, limits[0]);
      SmallerSet(Below(s, next), Below(s, cursor));
      FrozenWalkFinishes(snapshots[1..], limits[1..], s, next);
    }
  }

  lemma {:induction false} SmallerSet<T>(a: set<T>, b: set<T>)
    requires a < b
    ensures |a| < |b|
  {
    assert |b - a| > 0 && a + (b - a) == b;
  }

  // ----- a change between any two pages -----

  /** Where a walk that goes on stands after its pages. */
  ghost function CursorAfter(snapshots: seq<set<Position>>, limits: seq<nat>, cursor: Option<Position>): Option<Position>
    requires |snapshots| == |limits| && Positive(limits) && !Finishes(snapshots, limits, cursor)
    decreases |snapshots|
  {
    if snapshots == [] then cursor
    else CursorAfter(snapshots[1..], limits[1..], NextCursor(snapshots[0], cursor, limits[0]))
  }

  lemma {:induction false} WalkStep(s: set<Position>, limit: nat, rest: seq<set<Position>>, limits: seq<nat>,
                                    cursor: Option<Position>)
    requires |rest| == |limits| && limit > 0 && Positive(limits)
    ensures Positive([limit] + limits)
    ensures Walk([s] + rest, [limit] + limits, cursor)
         == Page(s, cursor, limit) + if HasMore(s, cursor, limit) then Walk(rest, limits, NextCursor(s, cursor, limit)) else []
    ensures Finishes([s] + rest, [limit] + limits, cursor)
       <==> (HasMore(s, cursor, limit) ==> Finishes(rest, limits, NextCursor(s, cursor, limit)))
    ensures HasMore(s, cursor, limit) && !Finishes(rest, limits, NextCursor(s, cursor, limit)) ==>
              CursorAfter([s] + rest, [limit] + limits, cursor) == CursorAfter(rest, limits, NextCursor(s, cursor, limit))
  {
    assert ([s] + rest)[1..] == rest && ([limit] + limits)[1..] == limits;
  }

  /** A walk is its early pages and, if they leave a cursor, the walk on from it. */
  lemma {:induction false} WalkSplits(early: seq<set<Position>>, la: seq<nat>, late: seq<set<Position>>, lb: seq<nat>,
                                      cursor: Option<Position>)
    requires |early| == |la| && |late| == |lb| && Positive(la) && Positive(lb)
    ensures Positive(la + lb)
    ensures Walk(early + late, la + lb, cursor)
         == Walk(early, la, cursor)
            + if Finishes(early, la, cursor) then [] else Walk(late, lb, CursorAfter(early, la, cursor))
    ensures Finishes(early + late, la + lb, cursor)
       <==> Finishes(early, la, cursor) || Finishes(late, lb, CursorAfter(early, la, cursor))
    decreases |early|, 0
  {
    if early == [] {
      assert early + late == late && la + lb == lb;
      Regroup(Walk(late, lb, cursor), [], []);
    } else {
      var s, limit, rest, limits := early[0], la[0], early[1..], la[1..];
      assert early == [s] + rest && la == [limit] + limits;
      assert early + late == [s] + (rest + late) && la + lb == [limit] + (limits + lb);
      WalkSplitsHere(s, limit, rest, limits, late, lb, cursor);
    }
  }

  lemma {:induction false} WalkSplitsHere(s: set<Position>, limit: nat, rest: seq<set<Position>>, limits: seq<nat>,
                                          late: seq<set<Position>>, lb: seq<nat>, cursor: Option<Position>)
    requires |rest| == |limits| && |late| == |lb| && limit > 0 && Positive(limits) && Positive(lb)
    ensures Positive([limit] + (limits + lb)) && Positive([limit] + limits)
    ensures Walk([s] + (rest + late), [limit] + (limits + lb), cursor)
         == Walk([s] + rest, [limit] + limits, cursor)
            + if Finishes([s] + rest, [limit] + limits, cursor) then []
              else Walk(late, lb, CursorAfter([s] + rest, [limit] + limits, cursor))
    ensures Finishes([s] + (rest + late), [limit] + (limits + lb), cursor)
       <==> Finishes([s] + rest, [limit] + limits, cursor)
            || Finishes(late, lb, CursorAfter([s] + rest, [limit] + limits, cursor))
    decreases |rest|, 1
  {
    hide Walk, Finishes, CursorAfter, Page, HasMore, NextCursor;
    WalkStep(s, limit, rest, limits, cursor);
    if HasMore(s, cursor, limit) {
      var next := NextCursor(s, cursor, limit);
      WalkSplits(rest, limits, late, lb, next);
      WalkStep(s, limit, rest + late, limits + lb, cursor);
      Regroup(Page(s, cursor, limit), Walk(rest, limits, next),
              if Finishes(rest, limits, next) then [] else Walk(late, lb, CursorAfter(rest, limits, next)));
    } else {
      assert Positive(limits + lb);
      WalkStep(s, limit, rest + late, limits + lb, cursor);
      Regroup(Page(s, cursor, limit), [], []);
    }
  }

  /** A position gone between any two pages is returned exactly when the pages
      before returned it, whatever else changes. */
  lemma {:induction false} GoneIsReturnedBefore(early: seq<set<Position>>, la: seq<nat>, late: seq<set<Position>>,
                                                lb: seq<nat>, cursor: Option<Position>, p: Position)
    requires |early| == |la| && |late| == |lb| && Positive(la) && Positive(lb)
    requires forall k :: 0 <= k < |late| ==> p !in late[k]
    ensures Positive(la + lb)
    ensures p in Walk(early + late, la + lb, cursor) <==> p in Walk(early, la, cursor)
  {
    WalkSplits(early, la, late, lb, cursor);
    if !Finishes(early, la, cursor) && p in Walk(late, lb, CursorAfter(early, la, cursor)) {
      WalkReturnsHeld(late, lb, CursorAfter(early, la, cursor), p);
    }
  }

  /** A walk only goes down. */
  lemma {:induction false} CursorOnlyFalls(snapshots: seq<set<Position>>, limits: seq<nat>, cursor: Position)
    requires |snapshots| == |limits| && Positive(limits) && !Finishes(snapshots, limits, Some(cursor))
    ensures var at := CursorAfter(snapshots, limits, Some(cursor));
            at.Some? && (at.value == cursor || Less(at.value, cursor))
    decreases |snapshots|
  {
    if snapshots != [] {
      var s, limit := snapshots[0], limits[0];
      var next := NextCursor(s, Some(cursor), limit).value;
      PageFacts(s, Some(cursor), limit);
      assert next in Elements(Page(s, Some(cursor), limit));
      CursorOnlyFalls(snapshots[1..], limits[1..], next);
      var at := CursorAfter(snapshots[1..], limits[1..], Some(next)).value;
      if at != next {
        LessIsTransitive(at, next, cursor);
      }
    }
  }

  /** What a page that goes on returned does not lie below its last row. */
  lemma {:induction false} PageIsNotBelow(s: set<Position>, cursor: Option<Position>, limit: nat, p: Position, at: Position)
    requires limit > 0 && HasMore(s, cursor, limit) && p in Page(s, cursor, limit)
    requires var next := NextCursor(s, cursor, limit).value; at == next || Less(at, next)
    ensures !Less(p, at)
  {
    PageFacts(s, cursor, limit);
    var page, next := Page(s, cursor, limit), NextCursor(s, cursor, limit).value;
    assert p == next || Less(next, p);
    if Less(p, at) {
      if at != next {
        LessIsTransitive(p, at, next);
      }
      if p != next {
        LessIsTransitive(next, p, next);
      }
      LessIsIrreflexive(next);
    }
  }

  /** A walk that goes on has returned, of a position its pages all held, exactly
      what does not lie below the cursor it reached. */
  lemma {:induction false} ReturnedIsNotBelow(snapshots: seq<set<Position>>, limits: seq<nat>, cursor: Option<Position>,
                                              p: Position)
    requires |snapshots| == |limits| && Positive(limits) && !Finishes(snapshots, limits, cursor)
    requires snapshots != [] && forall k :: 0 <= k < |snapshots| ==> p in snapshots[k]
    requires cursor.Some? ==> Less(p, cursor.value)
    ensures var at := CursorAfter(snapshots, limits, cursor);
            at.Some? && (p in Walk(snapshots, limits, cursor) <==> !Less(p, at.value))
    decreases |snapshots|
  {
    hide Page, HasMore, NextCursor, Descending, Less;
    var s, limit, rest, limitsLeft := snapshots[0], limits[0], snapshots[1..], limits[1..];
    assert snapshots == [s] + rest && limits == [limit] + limitsLeft;
    WalkStep(s, limit, rest, limitsLeft, cursor);
    var next := NextCursor(s, cursor, limit);
    assert p in Below(s, cursor);
    NextIsLast(s, cursor, limit);
    PageSplits(s, cursor, limit, p);
    CursorOnlyFalls(rest, limitsLeft, next.value);
    var at := CursorAfter(rest, limitsLeft, next).value;
    if p in Page(s, cursor, limit) {
      PageIsNotBelow(s, cursor, limit, p, at);
    } else if rest != [] {
      ReturnedIsNotBelow(rest, limitsLeft, next, p);
    }
  }

  lemma {:induction false} NextIsLast(s: set<Position>, cursor: Option<Position>, limit: nat)
    requires limit > 0 && HasMore(s, cursor, limit)
    ensures var page, next := Page(s, cursor, limit), NextCursor(s, cursor, limit);
            |page| == limit && next == Some(page[limit - 1])
  {
    PageFacts(s, cursor, limit);
  }

  /** A position that appears between two pages of a walk that goes on, and
      stays, is returned exactly when it lies below the cursor reached by then. */
  lemma {:induction false} LateIsReturnedBelow(early: seq<set<Position>>, la: seq<nat>, late: seq<set<Position>>,
                                               lb: seq<nat>, cursor: Option<Position>, p: Position)
    requires |early| == |la| && |late| == |lb| && Positive(la) && Positive(lb)
    requires forall k :: 0 <= k < |early| ==> p !in early[k]
    requires forall k :: 0 <= k < |late| ==> p in late[k]
    requires !Finishes(early, la, cursor) && Finishes(late, lb, CursorAfter(early, la, cursor))
    ensures Positive(la + lb)
    ensures var at := CursorAfter(early, la, cursor);
            p in Walk(early + late, la + lb, cursor) <==> (at.None? || Less(p, at.value))
  {
    var at := CursorAfter(early, la, cursor);
    WalkSplits(early, la, late, lb, cursor);
    if p in Walk(early, la, cursor) {
      WalkReturnsHeld(early, la, cursor, p);
    }
    WalkDescends(late, lb, at);
    if at.None? || Less(p, at.value) {
      WalkReturnsLasting(late, lb, at, p);
    }
  }
}
