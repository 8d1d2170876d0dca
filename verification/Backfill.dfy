/** The ordered backfill (indexer/src/datasources.rs): signatures are listed
    newest first, page by page, while newer ones keep arriving, and replayed
    oldest first. */
module Backfill {
  import opened Options
  import opened Sequences

  type Signature = string

  /** One listed transaction; `readable` when its signature parses. */
  datatype Info = Info(signature: Signature, slot: nat, readable: bool)

  /** Newest first: no signature twice, slots never rising. */
  ghost predicate IsLedger(l: seq<Info>) {
    && (forall i, j :: 0 <= i < j < |l| ==> l[i].signature != l[j].signature)
    && (forall i, j :: 0 <= i < j < |l| ==> l[i].slot >= l[j].slot)
  }

  ghost predicate IsSuffix(a: seq<Info>, b: seq<Info>) {
    |a| <= |b| && b[|b| - |a|..] == a
  }

  /** What the node lists at each page request: entries are only ever added at
      the new end. */
  ghost predicate Grows(ledger: nat -> seq<Info>) {
    && (forall k: nat :: IsLedger(ledger(k)))
    && (forall j: nat, k: nat :: j <= k ==> IsSuffix(ledger(j), ledger(k)))
  }

  function IndexOf(l: seq<Info>, signature: Signature): (r: Option<nat>)
    ensures r.Some? ==> r.value < |l| && l[r.value].signature == signature
    ensures r.None? ==> forall i :: 0 <= i < |l| ==> l[i].signature != signature
  {
    if l == [] then None
    else if l[0].signature == signature then Some(0)
    else
      match IndexOf(l[1..], signature)
      case None => None
      case Some(i) => Some(i + 1)
  }

  /** `getSignaturesForAddress`: the newest `limit` entries older than `before`. */
  function Page(l: seq<Info>, before: Option<Signature>, limit: nat): seq<Info> {
    if before.None? then Take(l, limit)
    else
      match IndexOf(l, before.value)
      case None => []
      case Some(i) => Take(l[i + 1..], limit)
  }

  /** The next page's `before`: None again when the last signature of this page
      does not parse. */
  function Cursor(page: seq<Info>): Option<Signature>
    requires page != []
  {
    var last := page[|page| - 1];
    if last.readable then Some(last.signature) else None
  }

  function Wanted(fromSlot: nat): Info -> bool {
    (i: Info) => i.slot >= fromSlot && i.readable
  }

  function Signatures(l: seq<Info>): seq<Signature> {
    seq(|l|, i requires 0 <= i < |l| => l[i].signature)
  }

  /** The signatures a backfill owes: those of a ledger from the floor slot up. */
  function Owed(l: seq<Info>, fromSlot: nat): seq<Signature> {
    Signatures(Keep(l, Wanted(fromSlot)))
  }

  // ----- paging by cursor -----

  lemma {:induction false} PageFollows(first: seq<Info>, grown: seq<Info>, p: nat, limit: nat)
    requires IsLedger(grown) && IsSuffix(first, grown) && 0 < p <= |first|
    ensures Page(grown, Some(first[p - 1].signature), limit) == Take(first[p..], limit)
  {
    var at := |grown| - |first| + p - 1;
    assert grown[|grown| - |first|..][p - 1] == grown[at];
    assert grown[at] == first[p - 1];
    assert IndexOf(grown, first[p - 1].signature) == Some(at);
    assert grown[at + 1..] == grown[|grown| - |first|..][p..];
  }

  lemma {:induction false} OwedSplits(a: seq<Info>, b: seq<Info>, fromSlot: nat)
    ensures Owed(a + b, fromSlot) == Owed(a, fromSlot) + Owed(b, fromSlot)
  {
    hide Keep;
    KeepSplits(a, b, Wanted(fromSlot));
  }

  lemma {:induction false} OwedNext(batch: seq<Info>, j: nat, fromSlot: nat)
    requires j < |batch| && batch[j].slot >= fromSlot
    ensures Owed(batch[..j + 1], fromSlot)
         == if batch[j].readable then Owed(batch[..j], fromSlot) + [batch[j].signature] else Owed(batch[..j], fromSlot)
  {
    var one := [batch[j]];
    assert batch[..j + 1] == batch[..j] + one;
    OwedSplits(batch[..j], one, fromSlot);
    assert one[1..] == [];
    assert Keep(one, Wanted(fromSlot)) == if batch[j].readable then one else [];
  }

  /** Below the floor nothing more is owed. */
  lemma {:induction false} OwedStops(l: seq<Info>, i: nat, fromSlot: nat)
    requires IsLedger(l) && i < |l| && l[i].slot < fromSlot
    ensures Owed(l, fromSlot) == Owed(l[..i], fromSlot)
  {
    hide Keep;
    assert l == l[..i] + l[i..];
    OwedSplits(l[..i], l[i..], fromSlot);
    forall x | x in l[i..] ensures !Wanted(fromSlot)(x) {
    }
    KeepNone(l[i..], Wanted(fromSlot));
  }

  /** Where the m-th full page ends. */
  function EndOf(m: nat, limit: nat): nat {
    if m == 0 then 0 else EndOf(m - 1, limit) + limit
  }

  lemma {:induction false} EndOfNext(m: nat, limit: nat)
    ensures EndOf(0, limit) == 0 && EndOf(m + 1, limit) == EndOf(m, limit) + limit
  {
  }

  /** Every full page at or above the floor ends on a signature that parses. */
  ghost predicate PagesEndReadable(l: seq<Info>, limit: nat, fromSlot: nat) {
    forall m: nat :: 0 < EndOf(m, limit) <= |l| && l[EndOf(m, limit) - 1].slot >= fromSlot ==> l[EndOf(m, limit) - 1].readable
  }

  /** Where a page first falls below the floor, or its length. */
  function Stop(page: seq<Info>, fromSlot: nat): (n: nat)
    ensures n <= |page| && (n < |page| ==> page[n].slot < fromSlot)
    ensures forall j :: 0 <= j < n ==> page[j].slot >= fromSlot
  {
    if page == [] || page[0].slot < fromSlot then 0 else 1 + Stop(page[1..], fromSlot)
  }

  lemma {:induction false} StopIs(page: seq<Info>, fromSlot: nat, n: nat)
    requires n <= |page| && (n < |page| ==> page[n].slot < fromSlot)
    requires forall j :: 0 <= j < n ==> page[j].slot >= fromSlot
    ensures Stop(page, fromSlot) == n
  {
  }

  /** The enumeration after its first requests: cursor, signatures, whether over. */
  datatype Listing = Listing(before: Option<Signature>, signatures: seq<Signature>, ended: bool)

  function AfterPage(s: Listing, page: seq<Info>, fromSlot: nat, limit: nat): Listing
    requires limit > 0
  {
    var stop := Stop(page, fromSlot);
    var signatures := s.signatures + Owed(page[..stop], fromSlot);
    if stop < |page| || |page| < limit then Listing(s.before, signatures, true)
    else Listing(Cursor(page), signatures, false)
  }

  /** The enumeration after `k` requests, whatever the signatures. */
  function Lists(ledger: nat -> seq<Info>, fromSlot: nat, limit: nat, k: nat): Listing
    requires limit > 0
  {
    if k == 0 then Listing(None, [], false)
    else
      var s := Lists(ledger, fromSlot, limit, k - 1);
      if s.ended then s else AfterPage(s, Page(ledger(k - 1), s.before, limit), fromSlot, limit)
  }

  /** The inner loop: one page, up to the first entry below the floor. */
  method ReadPage(batch: seq<Info>, sofar: seq<Signature>, fromSlot: nat)
    returns (signatures: seq<Signature>, stop: nat)
    ensures stop == Stop(batch, fromSlot) && signatures == sofar + Owed(batch[..stop], fromSlot)
  {
    hide Owed;
    OwedOfNone(fromSlot);
    assert batch[..0] == [];
    signatures, stop := sofar, 0;
    while stop < |batch|
      invariant stop <= |batch|
      invariant signatures == sofar + Owed(batch[..stop], fromSlot)
      invariant forall j :: 0 <= j < stop ==> batch[j].slot >= fromSlot
    {
      if batch[stop].slot < fromSlot {
        StopIs(batch, fromSlot, stop);
        return;
      }
      OwedNext(batch, stop, fromSlot);
      if batch[stop].readable {
        signatures := signatures + [batch[stop].signature];
      }
      stop := stop + 1;
    }
    StopIs(batch, fromSlot, stop);
  }

  lemma {:induction false} ListsNext(ledger: nat -> seq<Info>, fromSlot: nat, limit: nat, k: nat)
    requires limit > 0 && !Lists(ledger, fromSlot, limit, k).ended
    ensures var s := Lists(ledger, fromSlot, limit, k);
            Lists(ledger, fromSlot, limit, k + 1) == AfterPage(s, Page(ledger(k), s.before, limit), fromSlot, limit)
  {
  }

  lemma {:induction false} OwedOfNone(fromSlot: nat)
    ensures Owed([], fromSlot) == []
  {
  }

  lemma {:induction false} PageIsNext(first: seq<Info>, grown: seq<Info>, p: nat, before: Option<Signature>, limit: nat)
    requires IsLedger(grown) && IsSuffix(first, grown) && p <= |first|
    requires if p == 0 then before == None && grown == first else before == Some(first[p - 1].signature)
    ensures Page(grown, before, limit) == Take(first[p..], limit)
  {
    if p == 0 {
      assert first[0..] == first;
    } else {
      PageFollows(first, grown, p, limit);
    }
  }

  // ----- a last signature that does not parse -----

  /** The m-th full page, above the floor, is the first that ends unreadable. */
  ghost predicate EndsUnreadable(l: seq<Info>, limit: nat, fromSlot: nat, m: nat) {
    && m > 0 && 0 < EndOf(m, limit) <= |l| && l[EndOf(m, limit) - 1].slot >= fromSlot && !l[EndOf(m, limit) - 1].readable
    && forall t: nat :: 0 < t < m && 0 < EndOf(t, limit) <= |l| ==> l[EndOf(t, limit) - 1].readable
  }

  /** A ledger that does not change. */
  function Still(l: seq<Info>): nat -> seq<Info> { (_: nat) => l }

  /** The page that the k-th request gets when the m-th page ends unreadable. */
  function Turn(m: nat, k: nat): (t: nat)
    requires m > 0
    ensures t < m
  {
    if k == 0 then 0 else if Turn(m, k - 1) + 1 == m then 0 else Turn(m, k - 1) + 1
  }

  lemma {:induction false} EndsRise(a: nat, b: nat, limit: nat)
    requires a <= b
    ensures EndOf(a, limit) <= EndOf(b, limit)
    decreases b
  {
    if a < b {
      EndsRise(a, b - 1, limit);
    }
  }

  lemma {:induction false} PageAt(l: seq<Info>, limit: nat, t: nat)
    requires IsLedger(l) && limit > 0 && EndOf(t + 1, limit) <= |l|
    ensures EndOf(t, limit) + limit == EndOf(t + 1, limit)
    ensures Page(l, if t == 0 then None else Some(l[EndOf(t, limit) - 1].signature), limit)
         == l[EndOf(t, limit)..EndOf(t + 1, limit)]
  {
    hide Page, IsLedger, EndOf, Take;
    EndOfNext(t, limit);
    EndOfNext(0, limit);
    if t > 0 {
      EndOfNext(t - 1, limit);
    }
    var p := EndOf(t, limit);
    assert IsSuffix(l, l);
    PageIsNext(l, l, p, if t == 0 then None else Some(l[p - 1].signature), limit);
    FullPage(l, p, limit);
    assert Take(l[p..], limit) == l[p..p + limit];
  }

  /** The enumeration is not over after `k` requests, and the next one lists a full
      page at or above the floor: the one whose turn it is. */
  ghost predicate Repeats(l: seq<Info>, limit: nat, fromSlot: nat, m: nat, k: nat)
    requires m > 0 && limit > 0
  {
    var s, from, to := Lists(Still(l), fromSlot, limit, k), EndOf(Turn(m, k), limit), EndOf(Turn(m, k) + 1, limit);
    && !s.ended
    && from + limit == to <= |l|
    && Page(l, s.before, limit) == l[from..to]
    && forall i :: from <= i < to ==> l[i].slot >= fromSlot
  }

  lemma {:induction false} FullPageGoesOn(s: Listing, page: seq<Info>, fromSlot: nat, limit: nat)
    requires limit > 0 && |page| == limit && forall i :: 0 <= i < |page| ==> page[i].slot >= fromSlot
    ensures var n := AfterPage(s, page, fromSlot, limit);
            !n.ended && n.before == Cursor(page) && n.signatures == s.signatures + Owed(page, fromSlot)
  {
    StopIs(page, fromSlot, |page|);
    assert page[..|page|] == page;
  }

  lemma {:induction false} AboveFloorOf(ledger: nat -> seq<Info>, end: nat, fromSlot: nat)
    requires Grows(ledger) && 0 < end <= |ledger(0)| && ledger(0)[end - 1].slot >= fromSlot
    ensures forall i :: 0 <= i < end ==> ledger(0)[i].slot >= fromSlot
  {
  }

  lemma {:induction false} AboveFloor(l: seq<Info>, end: nat, fromSlot: nat)
    requires IsLedger(l) && 0 < end <= |l| && l[end - 1].slot >= fromSlot
    ensures forall i :: 0 <= i < end ==> l[i].slot >= fromSlot
  {
  }

  lemma {:induction false} RepeatsNext(l: seq<Info>, limit: nat, fromSlot: nat, m: nat, k: nat)
    requires limit > 0 && m > 0 && Repeats(l, limit, fromSlot, m, k)
    ensures var s, last := Lists(Still(l), fromSlot, limit, k + 1), l[EndOf(Turn(m, k) + 1, limit) - 1];
            !s.ended && s.before == if last.readable then Some(last.signature) else None
  {
    hide Page, EndOf, Turn, Lists, AfterPage, Owed;
    var s, from, to := Lists(Still(l), fromSlot, limit, k), EndOf(Turn(m, k), limit), EndOf(Turn(m, k) + 1, limit);
    ListsNext(Still(l), fromSlot, limit, k);
    assert forall i :: 0 <= i < limit ==> l[from..to][i] == l[from + i];
    FullPageGoesOn(s, l[from..to], fromSlot, limit);
  }

  lemma {:induction false} RepeatsAt(l: seq<Info>, limit: nat, fromSlot: nat, m: nat, k: nat)
    requires limit > 0 && m > 0 && !Lists(Still(l), fromSlot, limit, k).ended
    requires var from, to := EndOf(Turn(m, k), limit), EndOf(Turn(m, k) + 1, limit);
             && from + limit == to <= |l|
             && Page(l, Lists(Still(l), fromSlot, limit, k).before, limit) == l[from..to]
             && forall i :: 0 <= i < to ==> l[i].slot >= fromSlot
    ensures Repeats(l, limit, fromSlot, m, k)
  {
    hide Page, EndOf, Turn, Lists;
  }

  lemma {:induction false} TurnStarts(m: nat)
    requires m > 0
    ensures Turn(m, 0) == 0
  {
  }

  lemma {:induction false} TurnNext(m: nat, k: nat)
    requires m > 0
    ensures Turn(m, k + 1) == if Turn(m, k) + 1 == m then 0 else Turn(m, k) + 1
  {
  }

  /** If the m-th page is the first that ends on a signature that does not parse,
      and it is not under the floor, then against a ledger that stands still every
      request lists one of the first m full pages again: the enumeration never
      ends. */
  lemma {:induction false} UnreadableEndRepeats(l: seq<Info>, limit: nat, fromSlot: nat, m: nat, k: nat)
    requires IsLedger(l) && limit > 0 && EndsUnreadable(l, limit, fromSlot, m)
    ensures Repeats(l, limit, fromSlot, m, k)
  {
    hide Page, EndOf, Take, IsLedger, Lists, AfterPage, Owed, Stop, Turn, Repeats;
    var t := Turn(m, k);
    TurnStarts(m);
    EndsRise(t + 1, m, limit);
    AboveFloor(l, EndOf(m, limit), fromSlot);
    PageAt(l, limit, t);
    EndsRise(1, t + 1, limit);
    EndOfNext(0, limit);
    EndOfNext(t, limit);
    if k == 0 {
      NothingListed(Still(l), fromSlot, limit);
    } else {
      UnreadableEndRepeats(l, limit, fromSlot, m, k - 1);
      EndsRise(1, Turn(m, k - 1) + 1, limit);
      RepeatsNext(l, limit, fromSlot, m, k - 1);
      TurnNext(m, k - 1);
    }
    RepeatsAt(l, limit, fromSlot, m, k);
  }

  lemma {:induction false} NothingListed(ledger: nat -> seq<Info>, fromSlot: nat, limit: nat)
    requires limit > 0
    ensures Lists(ledger, fromSlot, limit, 0) == Listing(None, [], false)
  {
  }

  // ----- a restart while the ledger grows -----

  lemma {:induction false} ListsOnlyGrow(ledger: nat -> seq<Info>, fromSlot: nat, limit: nat, k: nat)
    requires limit > 0
    ensures Lists(ledger, fromSlot, limit, k).ended ==> Lists(ledger, fromSlot, limit, k + 1) == Lists(ledger, fromSlot, limit, k)
    ensures |Lists(ledger, fromSlot, limit, k).signatures| <= |Lists(ledger, fromSlot, limit, k + 1).signatures|
  {
    hide Page, Owed;
  }

  lemma {:induction false} EndedStays(ledger: nat -> seq<Info>, fromSlot: nat, limit: nat, j: nat, k: nat)
    requires limit > 0 && j <= k
    ensures Lists(ledger, fromSlot, limit, j).ended ==> Lists(ledger, fromSlot, limit, k) == Lists(ledger, fromSlot, limit, j)
    ensures |Lists(ledger, fromSlot, limit, j).signatures| <= |Lists(ledger, fromSlot, limit, k).signatures|
    decreases k
  {
    hide Lists;
    if j < k {
      EndedStays(ledger, fromSlot, limit, j, k - 1);
      ListsOnlyGrow(ledger, fromSlot, limit, k - 1);
    }
  }

  /** Request `i` is for the newest page. */
  ghost predicate AtTop(ledger: nat -> seq<Info>, fromSlot: nat, limit: nat, i: nat)
    requires limit > 0
  {
    !Lists(ledger, fromSlot, limit, i).ended && Lists(ledger, fromSlot, limit, i).before.None?
  }

  /** Request `i` starts the listing over. */
  ghost predicate Restarts(ledger: nat -> seq<Info>, fromSlot: nat, limit: nat, i: nat)
    requires limit > 0
  {
    i > 0 && AtTop(ledger, fromSlot, limit, i)
  }

  /** Before request `i` the listing is neither over nor at the top. */
  ghost predicate UnderWay(ledger: nat -> seq<Info>, fromSlot: nat, limit: nat, i: nat)
    requires limit > 0
  {
    !Lists(ledger, fromSlot, limit, i).ended && Lists(ledger, fromSlot, limit, i).before.Some?
  }

  /** The requests of one lap, from the top at `j`. */
  ghost predicate Lap(ledger: nat -> seq<Info>, fromSlot: nat, limit: nat, j: nat, e: nat)
    requires limit > 0
  {
    j < e && AtTop(ledger, fromSlot, limit, j) && forall i :: j < i < e ==> UnderWay(ledger, fromSlot, limit, i)
  }

  /** The last one, over at `e`. */
  ghost predicate LastLap(ledger: nat -> seq<Info>, fromSlot: nat, limit: nat, j: nat, e: nat)
    requires limit > 0
  {
    Lap(ledger, fromSlot, limit, j, e) && Lists(ledger, fromSlot, limit, e).ended
  }

  lemma {:induction false} LastLapExists(ledger: nat -> seq<Info>, fromSlot: nat, limit: nat, j: nat, k: nat)
    returns (last: nat, e: nat)
    requires limit > 0 && j <= k && Restarts(ledger, fromSlot, limit, j) && Lists(ledger, fromSlot, limit, k).ended
    ensures j <= last && e <= k && LastLap(ledger, fromSlot, limit, last, e)
    decreases k - j
  {
    hide Lists;
    if j == k {
      assert false;
    }
    last, e := j, j + 1;
    while !Lists(ledger, fromSlot, limit, e).ended && !Restarts(ledger, fromSlot, limit, e)
      invariant j < e <= k
      invariant forall i :: j < i < e ==> UnderWay(ledger, fromSlot, limit, i)
      decreases k - e
    {
      e := e + 1;
    }
    if Restarts(ledger, fromSlot, limit, e) {
      last, e := LastLapExists(ledger, fromSlot, limit, e, k);
    }
  }

  /** On the last lap the listing is what came before it and the lap's own pages,
      each ending readable. */
  ghost predicate OnLap(ledger: nat -> seq<Info>, fromSlot: nat, limit: nat, j: nat, t: nat)
    requires limit > 0
  {
    var l, s, p := ledger(j), Lists(ledger, fromSlot, limit, j + t), EndOf(t, limit);
    && p <= |l| && !s.ended
    && s.signatures == Lists(ledger, fromSlot, limit, j).signatures + Owed(l[..p], fromSlot)
    && (t > 0 ==> p > 0 && l[p - 1].readable && s.before == Some(l[p - 1].signature))
  }

  lemma {:induction false} LapParts(ledger: nat -> seq<Info>, fromSlot: nat, limit: nat, j: nat, e: nat, t: nat)
    requires limit > 0 && Lap(ledger, fromSlot, limit, j, e) && j + t < e
    ensures AtTop(ledger, fromSlot, limit, j) && (t > 0 ==> UnderWay(ledger, fromSlot, limit, j + t))
  {
    hide Lists;
  }

  lemma {:induction false} LapPage(ledger: nat -> seq<Info>, fromSlot: nat, limit: nat, j: nat, e: nat, t: nat)
    requires Grows(ledger) && limit > 0 && Lap(ledger, fromSlot, limit, j, e) && j + t < e
    requires OnLap(ledger, fromSlot, limit, j, t)
    ensures var l, s := ledger(j), Lists(ledger, fromSlot, limit, j + t);
            var page := Take(l[EndOf(t, limit)..], limit);
            && Page(ledger(j + t), s.before, limit) == page
            && Lists(ledger, fromSlot, limit, j + t + 1) == AfterPage(s, page, fromSlot, limit)
  {
    hide IsLedger, IsSuffix, Page, AfterPage, Lists, Owed, EndOf, Take, Lap;
    LapParts(ledger, fromSlot, limit, j, e, t);
    var l, s, p := ledger(j), Lists(ledger, fromSlot, limit, j + t), EndOf(t, limit);
    EndOfNext(0, limit);
    PageIsNext(l, ledger(j + t), p, s.before, limit);
    ListsNext(ledger, fromSlot, limit, j + t);
  }

  lemma {:induction false} LapStarts(ledger: nat -> seq<Info>, fromSlot: nat, limit: nat, j: nat)
    requires limit > 0 && AtTop(ledger, fromSlot, limit, j)
    ensures OnLap(ledger, fromSlot, limit, j, 0)
  {
    var before := Lists(ledger, fromSlot, limit, j).signatures;
    assert ledger(j)[..0] == [] && before + [] == before;
  }

  /** A full page above the floor that ends readable. */
  lemma {:induction false} AfterFullPage(s: Listing, l: seq<Info>, p: nat, fromSlot: nat, limit: nat)
    requires limit > 0 && p <= |l| && !AfterPage(s, Take(l[p..], limit), fromSlot, limit).ended
    ensures var n := AfterPage(s, Take(l[p..], limit), fromSlot, limit);
            && p + limit <= |l| && n.signatures == s.signatures + Owed(l[p..p + limit], fromSlot)
            && l[p + limit - 1].slot >= fromSlot
            && n.before == if l[p + limit - 1].readable then Some(l[p + limit - 1].signature) else None
  {
    hide Owed;
    var page := Take(l[p..], limit);
    assert page[..|page|] == page == l[p..p + limit];
    assert page[limit - 1] == l[p + limit - 1];
  }

  lemma {:induction false} LapGoesOn(ledger: nat -> seq<Info>, fromSlot: nat, limit: nat, j: nat, e: nat, t: nat)
    requires Grows(ledger) && limit > 0 && Lap(ledger, fromSlot, limit, j, e) && j + t < e
    ensures OnLap(ledger, fromSlot, limit, j, t)
    decreases t
  {
    hide Grows, Page, Lists, Owed, EndOf, AfterPage, Take, Lap;
    LapParts(ledger, fromSlot, limit, j, e, t);
    if t == 0 {
      LapStarts(ledger, fromSlot, limit, j);
    } else {
      LapGoesOn(ledger, fromSlot, limit, j, e, t - 1);
      LapPage(ledger, fromSlot, limit, j, e, t - 1);
      var l, s, p := ledger(j), Lists(ledger, fromSlot, limit, j + t - 1), EndOf(t - 1, limit);
      EndOfNext(t - 1, limit);
      AfterFullPage(s, l, p, fromSlot, limit);
      assert l[..p + limit] == l[..p] + l[p..p + limit];
      OwedSplits(l[..p], l[p..p + limit], fromSlot);
    }
  }

  lemma {:induction false} LaterIsLedger(l: seq<Info>, p: nat)
    requires IsLedger(l) && p <= |l|
    ensures IsLedger(l[p..])
  {
    var later := l[p..];
    assert forall i :: 0 <= i < |later| ==> later[i] == l[p + i];
  }

  lemma {:induction false} AfterLastPage(s: Listing, l: seq<Info>, p: nat, fromSlot: nat, limit: nat)
    requires IsLedger(l) && limit > 0 && p <= |l| && AfterPage(s, Take(l[p..], limit), fromSlot, limit).ended
    ensures Owed(l[..p], fromSlot) + Owed(l[p..], fromSlot) == Owed(l, fromSlot)
    ensures AfterPage(s, Take(l[p..], limit), fromSlot, limit).signatures == s.signatures + Owed(l[p..], fromSlot)
  {
    hide Owed, IsLedger;
    var page := Take(l[p..], limit);
    var stop := Stop(page, fromSlot);
    assert l == l[..p] + l[p..];
    OwedSplits(l[..p], l[p..], fromSlot);
    if stop < |page| {
      assert page[stop] == l[p..][stop] && page[..stop] == l[p..][..stop];
      LaterIsLedger(l, p);
      OwedStops(l[p..], stop, fromSlot);
    } else {
      assert page[..stop] == page == l[p..];
    }
  }

  /** The last lap lists everything the ledger owed when it began. */
  lemma {:induction false} LapIsWhole(ledger: nat -> seq<Info>, fromSlot: nat, limit: nat, j: nat, e: nat)
    requires Grows(ledger) && limit > 0 && LastLap(ledger, fromSlot, limit, j, e)
    ensures Lists(ledger, fromSlot, limit, e).signatures
         == Lists(ledger, fromSlot, limit, j).signatures + Owed(ledger(j), fromSlot)
  {
    hide IsLedger, IsSuffix, Page, Lists, Owed, EndOf, AfterPage, Take;
    var t := e - 1 - j;
    LapGoesOn(ledger, fromSlot, limit, j, e, t);
    LapPage(ledger, fromSlot, limit, j, e, t);
    AfterLastPage(Lists(ledger, fromSlot, limit, j + t), ledger(j), EndOf(t, limit), fromSlot, limit);
  }

  lemma {:induction false} OwedOfUnreadable(l: seq<Info>, fromSlot: nat)
    requires Owed(l, fromSlot) == [] && forall i :: 0 <= i < |l| ==> l[i].slot >= fromSlot
    ensures forall i :: 0 <= i < |l| ==> !l[i].readable
  {
    var kept := Keep(l, Wanted(fromSlot));
    forall i | 0 <= i < |l| ensures !l[i].readable {
      assert l[i] in kept <==> Wanted(fromSlot)(l[i]);
    }
  }

  /** Nothing collected before a restart means a first page without one signature
      that parses. */
  lemma {:induction false} FirstPageUnreadable(ledger: nat -> seq<Info>, fromSlot: nat, limit: nat, j: nat)
    requires limit > 0 && Restarts(ledger, fromSlot, limit, j) && Lists(ledger, fromSlot, limit, j).signatures == []
    ensures limit <= |ledger(0)|
    ensures forall i :: 0 <= i < limit ==> !ledger(0)[i].readable && ledger(0)[i].slot >= fromSlot
  {
    EndedStays(ledger, fromSlot, limit, 1, j);
    hide Owed;
    NothingListed(ledger, fromSlot, limit);
    ListsNext(ledger, fromSlot, limit, 0);
    var page := Take(ledger(0), limit);
    assert Stop(page, fromSlot) == |page| == limit;
    assert page[..|page|] == page;
    OwedOfUnreadable(page, fromSlot);
    assert forall i :: 0 <= i < limit ==> ledger(0)[i] == page[i];
  }

  /** Some full page ends inside any stretch of `limit` entries. */
  lemma {:induction false} EndInside(limit: nat, g: nat) returns (m: nat)
    requires limit > 0
    ensures m > 0 && g < EndOf(m, limit) <= g + limit
    decreases g
  {
    if g < limit {
      m := 1;
      EndOfNext(0, limit);
    } else {
      m := EndInside(limit, g - limit);
      EndOfNext(m, limit);
      m := m + 1;
    }
  }

  /** A full page above the floor does not end a lap. */
  lemma {:induction false} LapStep(ledger: nat -> seq<Info>, fromSlot: nat, limit: nat, j: nat, n: nat)
    requires Grows(ledger) && limit > 0 && n > 0 && Lap(ledger, fromSlot, limit, j, j + n)
    requires 0 < EndOf(n, limit) <= |ledger(j)| && forall i :: 0 <= i < EndOf(n, limit) ==> ledger(j)[i].slot >= fromSlot
    ensures var s, last := Lists(ledger, fromSlot, limit, j + n), ledger(j)[EndOf(n, limit) - 1];
            !s.ended && s.before == if last.readable then Some(last.signature) else None
  {
    hide Grows, Lap, Lists, Page, Owed, EndOf, AfterPage, Stop, Take;
    LapGoesOn(ledger, fromSlot, limit, j, j + n, n - 1);
    LapPage(ledger, fromSlot, limit, j, j + n, n - 1);
    EndOfNext(n - 1, limit);
    var l, p := ledger(j), EndOf(n - 1, limit);
    FullPage(l, p, limit);
    FullPageGoesOn(Lists(ledger, fromSlot, limit, j + n - 1), Take(l[p..], limit), fromSlot, limit);
  }

  lemma {:induction false} FullPage(l: seq<Info>, p: nat, limit: nat)
    requires p + limit <= |l|
    ensures var page := Take(l[p..], limit); |page| == limit && forall i :: 0 <= i < limit ==> page[i] == l[p + i]
  {
  }

  /** A lap over a ledger passes every full page above the floor. */
  lemma {:induction false} LapReaches(ledger: nat -> seq<Info>, fromSlot: nat, limit: nat, j: nat, e: nat, m: nat)
    requires Grows(ledger) && limit > 0 && LastLap(ledger, fromSlot, limit, j, e)
    requires EndOf(m, limit) <= |ledger(j)| && forall i :: 0 <= i < EndOf(m, limit) ==> ledger(j)[i].slot >= fromSlot
    ensures j + m < e
    decreases m
  {
    hide Grows, Lists, EndOf;
    if m > 0 {
      EndOfNext(m - 1, limit);
      LapReaches(ledger, fromSlot, limit, j, e, m - 1);
      LapStep(ledger, fromSlot, limit, j, m);
    }
  }

  lemma {:induction false} NewerFirst(first: seq<Info>, l: seq<Info>, fromSlot: nat)
    requires IsSuffix(first, l)
    ensures |Owed(first, fromSlot)| <= |Owed(l, fromSlot)|
    ensures forall i :: 0 <= i < |first| ==> l[|l| - |first| + i] == first[i]
  {
    var g := |l| - |first|;
    assert l == l[..g] + first;
    OwedSplits(l[..g], first, fromSlot);
    assert forall i :: 0 <= i < |first| ==> l[g..][i] == l[g + i];
  }

  /** While the ledger grows a listing that started over may end, but then it is
      never exactly what the backfill owes: it holds everything twice over, or it
      could not have passed the page that does not parse. */
  lemma {:induction false} RestartIsNeverExact(ledger: nat -> seq<Info>, fromSlot: nat, limit: nat, j: nat, k: nat)
    requires Grows(ledger) && limit > 0 && j <= k
    requires Restarts(ledger, fromSlot, limit, j) && Lists(ledger, fromSlot, limit, k).ended
    ensures Lists(ledger, fromSlot, limit, k).signatures != Owed(ledger(0), fromSlot)
  {
    hide Owed, Lists, Page, EndOf;
    var last, e := LastLapExists(ledger, fromSlot, limit, j, k);
    EndedStays(ledger, fromSlot, limit, e, k);
    LapIsWhole(ledger, fromSlot, limit, last, e);
    var first, l := ledger(0), ledger(last);
    NewerFirst(first, l, fromSlot);
    if Lists(ledger, fromSlot, limit, last).signatures == [] {
      FirstPageUnreadable(ledger, fromSlot, limit, last);
      var m := EndInside(limit, |l| - |first|);
      var end := EndOf(m, limit);
      assert l[end - 1] == first[end - 1 - (|l| - |first|)];
      AboveFloor(l, end, fromSlot);
      LapReaches(ledger, fromSlot, limit, last, e, m);
      LapGoesOn(ledger, fromSlot, limit, last, e, m);
      assert false;
    }
  }

  /** The first lap over a growing ledger, up to the page that ends unreadable. */
  lemma {:induction false} FirstLap(ledger: nat -> seq<Info>, fromSlot: nat, limit: nat, m: nat, n: nat)
    requires Grows(ledger) && limit > 0 && EndsUnreadable(ledger(0), limit, fromSlot, m) && 0 < n <= m
    ensures Lap(ledger, fromSlot, limit, 0, n) && 0 < EndOf(n, limit) <= |ledger(0)|
    ensures var s, last := Lists(ledger, fromSlot, limit, n), ledger(0)[EndOf(n, limit) - 1];
            !s.ended && s.before == if last.readable then Some(last.signature) else None
    decreases n
  {
    hide Grows, Lists, EndOf, IsLedger;
    EndOfNext(0, limit);
    EndsRise(1, n, limit);
    EndsRise(n, m, limit);
    NothingListed(ledger, fromSlot, limit);
    if n > 1 {
      FirstLap(ledger, fromSlot, limit, m, n - 1);
      EndsRise(1, n - 1, limit);
    }
    AboveFloorOf(ledger, EndOf(m, limit), fromSlot);
    LapStep(ledger, fromSlot, limit, 0, n);
  }

  /** When no page ends unreadable the first lap is the last. */
  lemma {:induction false} FirstLapEnds(ledger: nat -> seq<Info>, fromSlot: nat, limit: nat, n: nat) returns (e: nat)
    requires Grows(ledger) && limit > 0 && PagesEndReadable(ledger(0), limit, fromSlot)
    requires Lap(ledger, fromSlot, limit, 0, n + 1)
    ensures LastLap(ledger, fromSlot, limit, 0, e)
    decreases |ledger(0)| - EndOf(n, limit)
  {
    hide Page, Lists, Owed, EndOf, AfterPage, Stop, IsSuffix, IsLedger;
    var l, p := ledger(0), EndOf(n, limit);
    LapGoesOn(ledger, fromSlot, limit, 0, n + 1, n);
    LapPage(ledger, fromSlot, limit, 0, n + 1, n);
    if Lists(ledger, fromSlot, limit, n + 1).ended {
      e := n + 1;
    } else {
      AfterFullPage(Lists(ledger, fromSlot, limit, n), l, p, fromSlot, limit);
      EndOfNext(n, limit);
      e := FirstLapEnds(ledger, fromSlot, limit, n + 1);
    }
  }

  lemma {:induction false} FirstUnreadableEnd(l: seq<Info>, limit: nat, fromSlot: nat, m: nat) returns (first: nat)
    requires IsLedger(l) && 0 < EndOf(m, limit) <= |l|
    requires l[EndOf(m, limit) - 1].slot >= fromSlot && !l[EndOf(m, limit) - 1].readable
    ensures EndsUnreadable(l, limit, fromSlot, first)
    decreases m
  {
    hide EndOf;
    EndOfNext(0, limit);
    if t: nat :| 0 < t < m && 0 < EndOf(t, limit) <= |l| && !l[EndOf(t, limit) - 1].readable {
      EndsRise(t, m, limit);
      AboveFloor(l, EndOf(m, limit), fromSlot);
      first := FirstUnreadableEnd(l, limit, fromSlot, t);
    } else {
      first := m;
    }
  }

  /** While the ledger grows, the listing comes to an end that is exactly what the
      backfill owes if and only if no full page of the first ledger above the floor
      ends on a signature that does not parse. */
  lemma {:induction false} ListsExactlyIff(ledger: nat -> seq<Info>, fromSlot: nat, limit: nat)
    requires Grows(ledger) && limit > 0
    ensures PagesEndReadable(ledger(0), limit, fromSlot) <==>
            exists k :: Lists(ledger, fromSlot, limit, k).ended
                        && Lists(ledger, fromSlot, limit, k).signatures == Owed(ledger(0), fromSlot)
  {
    hide Owed, Lists, EndOf;
    NothingListed(ledger, fromSlot, limit);
    if PagesEndReadable(ledger(0), limit, fromSlot) {
      var e := FirstLapEnds(ledger, fromSlot, limit, 0);
      LapIsWhole(ledger, fromSlot, limit, 0, e);
    } else {
      var m: nat :| 0 < EndOf(m, limit) <= |ledger(0)| && ledger(0)[EndOf(m, limit) - 1].slot >= fromSlot
                    && !ledger(0)[EndOf(m, limit) - 1].readable;
      var first := FirstUnreadableEnd(ledger(0), limit, fromSlot, m);
      FirstLap(ledger, fromSlot, limit, first, first);
      forall k | Lists(ledger, fromSlot, limit, k).ended
        ensures Lists(ledger, fromSlot, limit, k).signatures != Owed(ledger(0), fromSlot)
      {
        if k < first {
          EndedStays(ledger, fromSlot, limit, k, first);
        }
        RestartIsNeverExact(ledger, fromSlot, limit, first, k);
      }
    }
  }

  // ----- the enumeration loop -----

  /** The pages before the k-th request are full and above the floor. */
  ghost predicate Requested(l: seq<Info>, limit: nat, fromSlot: nat, k: nat) {
    EndOf(k, limit) <= |l| && forall i :: 0 <= i < EndOf(k, limit) ==> l[i].slot >= fromSlot
  }

  lemma {:induction false} RequestedBefore(l: seq<Info>, limit: nat, fromSlot: nat, k: nat)
    ensures Requested(l, limit, fromSlot, 0)
    ensures Requested(l, limit, fromSlot, k + 1) ==> Requested(l, limit, fromSlot, k)
  {
    EndsRise(k, k + 1, limit);
  }

  /** Where every full page above the floor ends readable there is one lap, and it
      makes exactly the requests whose earlier pages were full and above the floor. */
  lemma {:induction false} GoesOnExactly(ledger: nat -> seq<Info>, fromSlot: nat, limit: nat, k: nat)
    requires Grows(ledger) && limit > 0 && PagesEndReadable(ledger(0), limit, fromSlot)
    ensures !Lists(ledger, fromSlot, limit, k).ended <==> Requested(ledger(0), limit, fromSlot, k)
    ensures !Lists(ledger, fromSlot, limit, k).ended ==> Lap(ledger, fromSlot, limit, 0, k + 1)
    decreases k
  {
    hide Grows, Lists, Requested, UnderWay, EndOf;
    if k == 0 {
      NothingListed(ledger, fromSlot, limit);
      RequestedBefore(ledger(0), limit, fromSlot, 0);
    } else {
      GoesOnExactly(ledger, fromSlot, limit, k - 1);
      RequestedBefore(ledger(0), limit, fromSlot, k - 1);
      EndedStays(ledger, fromSlot, limit, k - 1, k);
      if !Lists(ledger, fromSlot, limit, k - 1).ended {
        OneMoreOnLap(ledger, fromSlot, limit, k);
      }
    }
  }

  lemma {:induction false} OneMoreOnLap(ledger: nat -> seq<Info>, fromSlot: nat, limit: nat, k: nat)
    requires Grows(ledger) && limit > 0 && PagesEndReadable(ledger(0), limit, fromSlot)
    requires k > 0 && Lap(ledger, fromSlot, limit, 0, k)
    ensures !Lists(ledger, fromSlot, limit, k).ended <==> Requested(ledger(0), limit, fromSlot, k)
    ensures !Lists(ledger, fromSlot, limit, k).ended ==> UnderWay(ledger, fromSlot, limit, k)
  {
    hide Grows, Lists, Page, Owed, EndOf, AfterPage, Lap, Take, PagesEndReadable;
    var l, p := ledger(0), EndOf(k - 1, limit);
    EndOfNext(k - 1, limit);
    if Requested(l, limit, fromSlot, k) {
      LapStep(ledger, fromSlot, limit, 0, k);
    }
    if !Lists(ledger, fromSlot, limit, k).ended {
      LapGoesOn(ledger, fromSlot, limit, 0, k, k - 1);
      LapPage(ledger, fromSlot, limit, 0, k, k - 1);
      AfterFullPage(Lists(ledger, fromSlot, limit, k - 1), l, p, fromSlot, limit);
      AboveFloorOf(ledger, p + limit, fromSlot);
      EndIsReadable(l, limit, fromSlot, k);
    }
  }

  lemma {:induction false} EndIsReadable(l: seq<Info>, limit: nat, fromSlot: nat, k: nat)
    requires PagesEndReadable(l, limit, fromSlot)
    requires 0 < EndOf(k, limit) <= |l| && l[EndOf(k, limit) - 1].slot >= fromSlot
    ensures l[EndOf(k, limit) - 1].readable
  {
  }

  lemma {:induction false} EndsPass(k: nat, limit: nat)
    requires limit > 0
    ensures EndOf(k, limit) >= k
  {
    if k > 0 {
      EndsPass(k - 1, limit);
    }
  }

  /** ... and it ends, having listed what was owed at the first request. */
  lemma {:induction false} ListsWhatIsOwed(ledger: nat -> seq<Info>, fromSlot: nat, limit: nat, k: nat)
    requires Grows(ledger) && limit > 0 && PagesEndReadable(ledger(0), limit, fromSlot)
    ensures k > |ledger(0)| ==> Lists(ledger, fromSlot, limit, k).ended
    ensures Lists(ledger, fromSlot, limit, k).ended ==>
              Lists(ledger, fromSlot, limit, k).signatures == Owed(ledger(0), fromSlot)
  {
    hide Grows, Lists, Owed, EndOf;
    GoesOnExactly(ledger, fromSlot, limit, k);
    EndsPass(k, limit);
    NothingListed(ledger, fromSlot, limit);
    if Lists(ledger, fromSlot, limit, k).ended {
      var e := FirstLapEnds(ledger, fromSlot, limit, 0);
      LapIsWhole(ledger, fromSlot, limit, 0, e);
      EndedStays(ledger, fromSlot, limit, if e < k then e else k, if e < k then k else e);
    }
  }

  ghost predicate NoTroubleBefore(fails: nat -> bool, cancelled: nat -> bool, k: nat) {
    forall j: nat :: j < k ==> !fails(j) && !cancelled(j)
  }

  /** The k-th request is made: the listing is not over and nothing went wrong. */
  ghost predicate Made(ledger: nat -> seq<Info>, fails: nat -> bool, cancelled: nat -> bool, fromSlot: nat, limit: nat,
                       k: nat)
    requires limit > 0
  {
    NoTroubleBefore(fails, cancelled, k) && !Lists(ledger, fromSlot, limit, k).ended
  }

  /** The k-th request is made, goes well and ends the listing. */
  ghost predicate EndsWith(ledger: nat -> seq<Info>, fails: nat -> bool, cancelled: nat -> bool, fromSlot: nat,
                           limit: nat, k: nat, signatures: seq<Signature>)
    requires limit > 0
  {
    && Made(ledger, fails, cancelled, fromSlot, limit, k) && NoTroubleBefore(fails, cancelled, k + 1)
    && Lists(ledger, fromSlot, limit, k + 1).ended && Lists(ledger, fromSlot, limit, k + 1).signatures == signatures
  }

  datatype Enumeration = Failed | Cancelled | Unfinished | Listed(signatures: seq<Signature>)

  /** Phase 1, up to `requests` requests, over whatever the node lists at each. It
      fails or is cancelled exactly at the first request made that is; and where
      every full page above the floor ends readable it ends with exactly what was
      owed at the first request, for any page size and whatever arrives meanwhile. */
  method Enumerate(ledger: nat -> seq<Info>, fails: nat -> bool, cancelled: nat -> bool, fromSlot: nat, limit: nat,
                   requests: nat)
    returns (r: Enumeration)
    requires limit > 0
    ensures match r
            case Cancelled => exists k: nat :: k < requests && Made(ledger, fails, cancelled, fromSlot, limit, k) && cancelled(k)
            case Failed => exists k: nat :: k < requests && Made(ledger, fails, cancelled, fromSlot, limit, k)
                                            && fails(k) && !cancelled(k)
            case Listed(signatures) =>
              exists k: nat :: k < requests && EndsWith(ledger, fails, cancelled, fromSlot, limit, k, signatures)
            case Unfinished => Made(ledger, fails, cancelled, fromSlot, limit, requests)
    ensures Grows(ledger) && PagesEndReadable(ledger(0), limit, fromSlot) ==>
              && (r.Listed? ==> r.signatures == Owed(ledger(0), fromSlot))
              && (requests > |ledger(0)| ==> !r.Unfinished?)
  {
    hide Owed, Page, Stop, Lists, NoTroubleBefore, Grows, PagesEndReadable;
    var signatures: seq<Signature>, before: Option<Signature> := [], None;
    var k: nat := 0;
    NothingListed(ledger, fromSlot, limit);
    NoTrouble(fails, cancelled, 0);
    while k < requests
      invariant k <= requests
      invariant Lists(ledger, fromSlot, limit, k) == Listing(before, signatures, false)
      invariant NoTroubleBefore(fails, cancelled, k)
    {
      if cancelled(k) {
        return Cancelled;
      }
      if fails(k) {
        return Failed;
      }
      NoTrouble(fails, cancelled, k);
      var batch := Page(ledger(k), before, limit);
      ListsNext(ledger, fromSlot, limit, k);
      var stop;
      signatures, stop := ReadPage(batch, signatures, fromSlot);
      if batch == [] || stop < |batch| || |batch| < limit {
        assert EndsWith(ledger, fails, cancelled, fromSlot, limit, k, signatures);
        OwedIfReadable(ledger, fromSlot, limit, k + 1);
        return Listed(signatures);
      }
      before, k := Cursor(batch), k + 1;
    }
    OwedIfReadable(ledger, fromSlot, limit, k);
    return Unfinished;
  }

  lemma {:induction false} NoTrouble(fails: nat -> bool, cancelled: nat -> bool, k: nat)
    ensures NoTroubleBefore(fails, cancelled, 0)
    ensures NoTroubleBefore(fails, cancelled, k) && !fails(k) && !cancelled(k) ==> NoTroubleBefore(fails, cancelled, k + 1)
  {
  }

  lemma {:induction false} OwedIfReadable(ledger: nat -> seq<Info>, fromSlot: nat, limit: nat, k: nat)
    requires limit > 0
    ensures Grows(ledger) && PagesEndReadable(ledger(0), limit, fromSlot) ==>
              && (k > |ledger(0)| ==> Lists(ledger, fromSlot, limit, k).ended)
              && (Lists(ledger, fromSlot, limit, k).ended ==>
                    Lists(ledger, fromSlot, limit, k).signatures == Owed(ledger(0), fromSlot))
  {
    hide *;
    if Grows(ledger) && PagesEndReadable(ledger(0), limit, fromSlot) {
      ListsWhatIsOwed(ledger, fromSlot, limit, k);
    }
  }

  // ----- replay -----

  datatype Update = Update(signature: Signature, slot: nat)

  /** One fetch: an error, a transaction that does not decode or had failed, or
      an update. */
  datatype Fetched = Unfetched | Undecodable | Decoded(update: Update)

  function Reversed<T>(s: seq<T>): (r: seq<T>)
    ensures |r| == |s|
    ensures forall i :: 0 <= i < |s| ==> r[i] == s[|s| - 1 - i]
  {
    seq(|s|, i requires 0 <= i < |s| => s[|s| - 1 - i])
  }

  /** What phase 3 sends from position `i` on: every update in order, until a
      cancellation or a send that fails. */
  function Replayed(signatures: seq<Signature>, fetch: Signature -> Fetched, cancelled: nat -> bool,
                    sendFails: nat -> bool, i: nat): seq<Update>
    requires i <= |signatures|
    decreases |signatures| - i
  {
    if i == |signatures| || cancelled(i) then []
    else if !fetch(signatures[i]).Decoded? then Replayed(signatures, fetch, cancelled, sendFails, i + 1)
    else if sendFails(i) then []
    else [fetch(signatures[i]).update] + Replayed(signatures, fetch, cancelled, sendFails, i + 1)
  }

  method Replay(signatures: seq<Signature>, fetch: Signature -> Fetched, cancelled: nat -> bool, sendFails: nat -> bool)
    returns (sent: seq<Update>)
    ensures sent == Replayed(signatures, fetch, cancelled, sendFails, 0)
  {
    sent := [];
    var i := 0;
    while i < |signatures|
      invariant i <= |signatures|
      invariant sent + Replayed(signatures, fetch, cancelled, sendFails, i) == Replayed(signatures, fetch, cancelled, sendFails, 0)
    {
      if cancelled(i) {
        break;
      }
      var result := fetch(signatures[i]);
      if result.Decoded? {
        if sendFails(i) {
          break;
        }
        sent := sent + [result.update];
      }
      i := i + 1;
    }
  }

  ghost predicate Rises(at: seq<nat>) {
    forall i, j :: 0 <= i < j < |at| ==> at[i] < at[j]
  }

  /** `kept` are the entries of `l` at these positions. */
  ghost predicate IsPick<T>(l: seq<T>, kept: seq<T>, at: seq<nat>) {
    |at| == |kept| && Rises(at) && forall i :: 0 <= i < |at| ==> at[i] < |l| && l[at[i]] == kept[i]
  }

  function Shifted(at: seq<nat>): seq<nat> {
    seq(|at|, i requires 0 <= i < |at| => at[i] + 1)
  }

  lemma {:induction false} PickLater<T(!new)>(x: T, rest: seq<T>, kept: seq<T>, at: seq<nat>)
    requires IsPick(rest, kept, at)
    ensures IsPick([x] + rest, kept, Shifted(at))
    ensures IsPick([x] + rest, [x] + kept, [0] + Shifted(at))
  {
  }

  lemma {:induction false} KeepPicks<T(!new)>(l: seq<T>, p: T -> bool) returns (at: seq<nat>)
    ensures IsPick(l, Keep(l, p), at)
  {
    if l == [] {
      at := [];
    } else {
      hide IsPick, Keep;
      var x, rest := l[0], l[1..];
      assert l == [x] + rest;
      var later := KeepPicks(rest, p);
      PickLater(x, rest, Keep(rest, p), later);
      KeepFirst(x, rest, p);
      at := if p(x) then [0] + Shifted(later) else Shifted(later);
      assert [] + Keep(rest, p) == Keep(rest, p);
    }
  }

  /** The updates sent are those of rising positions from `i` on. */
  ghost predicate Sends(signatures: seq<Signature>, fetch: Signature -> Fetched, sent: seq<Update>, i: nat,
                        at: seq<nat>) {
    && |at| == |sent| && Rises(at)
    && forall k :: 0 <= k < |at| ==> i <= at[k] < |signatures| && fetch(signatures[at[k]]) == Decoded(sent[k])
  }

  lemma {:induction false} SendsFirst(signatures: seq<Signature>, fetch: Signature -> Fetched, sent: seq<Update>,
                                      i: nat, at: seq<nat>)
    requires i < |signatures| && Sends(signatures, fetch, sent, i + 1, at)
    ensures Sends(signatures, fetch, sent, i, at)
    ensures fetch(signatures[i]).Decoded? ==>
              Sends(signatures, fetch, [fetch(signatures[i]).update] + sent, i, [i] + at)
  {
  }

  lemma {:induction false} ReplayPicks(signatures: seq<Signature>, fetch: Signature -> Fetched, cancelled: nat -> bool,
                                       sendFails: nat -> bool, i: nat) returns (at: seq<nat>)
    requires i <= |signatures|
    ensures Sends(signatures, fetch, Replayed(signatures, fetch, cancelled, sendFails, i), i, at)
    decreases |signatures| - i
  {
    if i == |signatures| || cancelled(i) || (fetch(signatures[i]).Decoded? && sendFails(i)) {
      at := [];
    } else {
      hide Sends;
      var later := ReplayPicks(signatures, fetch, cancelled, sendFails, i + 1);
      SendsFirst(signatures, fetch, Replayed(signatures, fetch, cancelled, sendFails, i + 1), i, later);
      at := if fetch(signatures[i]).Decoded? then [i] + later else later;
    }
  }

  /** Updates sent for the ledger entries at falling positions, so from older to
      newer, all at or above the floor. */
  ghost predicate Chronological(l: seq<Info>, fromSlot: nat, fetch: Signature -> Fetched, sent: seq<Update>,
                                at: seq<nat>) {
    && |at| == |sent|
    && (forall k :: 0 <= k < |at| ==> at[k] < |l| && Wanted(fromSlot)(l[at[k]]) && fetch(l[at[k]].signature) == Decoded(sent[k]))
    && (forall k, m :: 0 <= k < m < |at| ==> at[k] > at[m] && l[at[k]].slot <= l[at[m]].slot)
  }

  /** Positions of `picks` in the reversed list, back in the ledger. */
  function Located(from: seq<nat>, picks: seq<nat>): (at: seq<nat>)
    requires forall k :: 0 <= k < |picks| ==> picks[k] < |from|
    ensures |at| == |picks|
  {
    seq(|picks|, k requires 0 <= k < |picks| => from[|from| - 1 - picks[k]])
  }

  lemma {:induction false} LocatedIsChronological(l: seq<Info>, fromSlot: nat, fetch: Signature -> Fetched,
                                                  kept: seq<Info>, from: seq<nat>,
                                                  sent: seq<Update>, picks: seq<nat>)
    requires IsLedger(l) && IsPick(l, kept, from) && forall i :: 0 <= i < |kept| ==> Wanted(fromSlot)(kept[i])
    requires Sends(Reversed(Signatures(kept)), fetch, sent, 0, picks)
    ensures Chronological(l, fromSlot, fetch, sent, Located(from, picks))
  {
    var at := Located(from, picks);
    forall k | 0 <= k < |at|
      ensures at[k] < |l| && Wanted(fromSlot)(l[at[k]]) && fetch(l[at[k]].signature) == Decoded(sent[k])
    {
      var i := |kept| - 1 - picks[k];
      assert l[from[i]] == kept[i] && Reversed(Signatures(kept))[picks[k]] == kept[i].signature;
    }
    forall k, m | 0 <= k < m < |at| ensures at[k] > at[m] && l[at[k]].slot <= l[at[m]].slot {
      assert picks[k] < picks[m];
    }
  }

  /** The replay is a chronological subsequence of the listing. */
  lemma {:induction false} ReplayIsChronological(l: seq<Info>, fromSlot: nat, fetch: Signature -> Fetched,
                                                 cancelled: nat -> bool, sendFails: nat -> bool)
    requires IsLedger(l)
    ensures exists at: seq<nat> :: Chronological(l, fromSlot, fetch,
              Replayed(Reversed(Owed(l, fromSlot)), fetch, cancelled, sendFails, 0), at)
  {
    hide IsPick, Sends, IsLedger, Chronological, Located, Replayed;
    var kept := Keep(l, Wanted(fromSlot));
    assert forall i :: 0 <= i < |kept| ==> kept[i] in kept;
    var from := KeepPicks(l, Wanted(fromSlot));
    var picks := ReplayPicks(Reversed(Owed(l, fromSlot)), fetch, cancelled, sendFails, 0);
    var sent := Replayed(Reversed(Owed(l, fromSlot)), fetch, cancelled, sendFails, 0);
    PicksInRange(l, kept, from, fetch, sent, picks);
    LocatedIsChronological(l, fromSlot, fetch, kept, from, sent, picks);
  }

  lemma {:induction false} PicksInRange(l: seq<Info>, kept: seq<Info>, from: seq<nat>, fetch: Signature -> Fetched,
                                        sent: seq<Update>, picks: seq<nat>)
    requires IsPick(l, kept, from) && Sends(Reversed(Signatures(kept)), fetch, sent, 0, picks)
    ensures forall k :: 0 <= k < |picks| ==> picks[k] < |from|
  {
  }

  function Decodes(fetch: Signature -> Fetched): Signature -> bool {
    (s: Signature) => fetch(s).Decoded?
  }

  /** Exactly these transactions were sent, in this order. */
  ghost predicate Delivers(decodable: seq<Signature>, fetch: Signature -> Fetched, sent: seq<Update>) {
    |sent| == |decodable| && forall k :: 0 <= k < |sent| ==> fetch(decodable[k]) == Decoded(sent[k])
  }

  lemma {:induction false} DeliversNone(fetch: Signature -> Fetched)
    ensures Delivers([], fetch, [])
  {
  }

  lemma {:induction false} DeliversMore(s: Signature, decodable: seq<Signature>, fetch: Signature -> Fetched,
                                        sent: seq<Update>)
    requires Delivers(decodable, fetch, sent)
    ensures [] + decodable == decodable
    ensures fetch(s).Decoded? ==> Delivers([s] + decodable, fetch, [fetch(s).update] + sent)
  {
    if fetch(s).Decoded? {
      var more, updates := [s] + decodable, [fetch(s).update] + sent;
      forall k | 0 <= k < |updates| ensures fetch(more[k]) == Decoded(updates[k]) {
        if k > 0 {
          assert more[k] == decodable[k - 1] && updates[k] == sent[k - 1];
        }
      }
    }
  }

  /** Uninterrupted, every owed transaction that decodes is sent, once. */
  lemma {:induction false} NothingIsSkipped(signatures: seq<Signature>, fetch: Signature -> Fetched,
                                            cancelled: nat -> bool,
                                            sendFails: nat -> bool, i: nat)
    requires i <= |signatures| && forall k :: !cancelled(k) && !sendFails(k)
    ensures var decodable := Keep(signatures[i..], Decodes(fetch));
            var sent := Replayed(signatures, fetch, cancelled, sendFails, i);
            Delivers(decodable, fetch, sent)
    decreases |signatures| - i
  {
    hide Keep, Delivers;
    if i == |signatures| {
      DeliversNone(fetch);
      KeepOfNone([], Decodes(fetch));
      assert signatures[i..] == [];
    } else {
      NothingIsSkipped(signatures, fetch, cancelled, sendFails, i + 1);
      assert signatures[i..] == [signatures[i]] + signatures[i + 1..];
      KeepFirst(signatures[i], signatures[i + 1..], Decodes(fetch));
      var decodable := Keep(signatures[i + 1..], Decodes(fetch));
      DeliversMore(signatures[i], decodable, fetch, Replayed(signatures, fetch, cancelled, sendFails, i + 1));
    }
  }

  datatype Consumption = Errored | Enumerating | Consumed(sent: seq<Update>)

  /** `consume`, its enumeration up to `requests` requests: an error, still
      enumerating, or the updates it sent. */
  method Consume(ledger: nat -> seq<Info>, pageFails: nat -> bool, pageCancelled: nat -> bool, fromSlot: nat,
                 limit: nat, requests: nat,
                 fetch: Signature -> Fetched, cancelled: nat -> bool, sendFails: nat -> bool)
    returns (r: Consumption)
    requires limit > 0
    ensures match r
            case Errored => exists k: nat :: k < requests && Made(ledger, pageFails, pageCancelled, fromSlot, limit, k)
                                             && pageFails(k) && !pageCancelled(k)
            case Enumerating => Made(ledger, pageFails, pageCancelled, fromSlot, limit, requests)
            case Consumed(sent) =>
              || (sent == [] && exists k: nat :: k < requests && Made(ledger, pageFails, pageCancelled, fromSlot, limit, k)
                                                 && pageCancelled(k))
              || (exists k: nat, listed ::
                    k < requests && EndsWith(ledger, pageFails, pageCancelled, fromSlot, limit, k, listed)
                    && sent == Replayed(Reversed(listed), fetch, cancelled, sendFails, 0))
    ensures Grows(ledger) && PagesEndReadable(ledger(0), limit, fromSlot) && requests > |ledger(0)|
            && (forall k: nat :: Requested(ledger(0), limit, fromSlot, k) ==> !pageFails(k) && !pageCancelled(k)) ==>
              r == Consumed(Replayed(Reversed(Owed(ledger(0), fromSlot)), fetch, cancelled, sendFails, 0))
  {
    hide Grows, PagesEndReadable, Requested, EndsWith, Made, Owed, Lists;
    var listing := Enumerate(ledger, pageFails, pageCancelled, fromSlot, limit, requests);
    MadeIsRequested(ledger, pageFails, pageCancelled, fromSlot, limit);
    match listing {
      case Failed => return Errored;
      case Cancelled => return Consumed([]);
      case Unfinished => return Enumerating;
      case Listed(signatures) =>
        var sent := Replay(Reversed(signatures), fetch, cancelled, sendFails);
        return Consumed(sent);
    }
  }

  lemma {:induction false} MadeIsRequested(ledger: nat -> seq<Info>, fails: nat -> bool, cancelled: nat -> bool,
                                           fromSlot: nat, limit: nat)
    requires limit > 0
    ensures Grows(ledger) && PagesEndReadable(ledger(0), limit, fromSlot) ==>
              forall k: nat :: Made(ledger, fails, cancelled, fromSlot, limit, k) ==> Requested(ledger(0), limit, fromSlot, k)
  {
    hide Grows, PagesEndReadable, Requested, Lists;
    if Grows(ledger) && PagesEndReadable(ledger(0), limit, fromSlot) {
      forall k: nat | Made(ledger, fails, cancelled, fromSlot, limit, k)
        ensures Requested(ledger(0), limit, fromSlot, k)
      {
        GoesOnExactly(ledger, fromSlot, limit, k);
      }
    }
  }
}
