/**
 GetNameList over a domain's virtual hierarchy: every object item contributes its
 '$'-separated prefixes, and a bounded sorted page is collected in one pass over the
 object table (static_dispatcher.cpp).
 */
module Directory {
  import opened Octets

  type Name = seq<byte>

  const DOLLAR: byte := 0x24

  datatype Entry = Entry(domain: Name, item: Name)

  // ----- Order

  /** string_view's operator<. */
  predicate Less(a: Name, b: Name) {
    b != [] && (a == [] || a[0] < b[0] || (a[0] == b[0] && Less(a[1..], b[1..])))
  }

  lemma {:induction false} LessTotal(a: Name, b: Name)
    ensures Less(a, b) || a == b || Less(b, a)
  {
    if a != [] && b != [] && a[0] == b[0] {
      LessTotal(a[1..], b[1..]);
      assert a == [a[0]] + a[1..] && b == [b[0]] + b[1..];
    }
  }

  lemma {:induction false} LessOneWay(a: Name, b: Name)
    requires Less(a, b)
    ensures a != b && !Less(b, a)
  {
    if a != [] && a[0] == b[0] {
      LessOneWay(a[1..], b[1..]);
    }
  }

  lemma {:induction false} LessTrans(a: Name, b: Name, c: Name)
    requires Less(a, b) && Less(b, c)
    ensures Less(a, c)
  {
    if a != [] && a[0] == b[0] == c[0] {
      LessTrans(a[1..], b[1..], c[1..]);
    }
  }

  predicate Rising(s: seq<Name>) {
    forall i, j :: 0 <= i < j < |s| ==> Less(s[i], s[j])
  }

  // ----- What a domain lists

  /** The first `i` octets of an item end at a component boundary the directory walk stops at. */
  predicate Boundary(item: Name, i: nat) {
    0 < i <= |item| && if i == |item| then item[i - 1] != DOLLAR else item[i] == DOLLAR
  }

  ghost predicate IsPrefix(item: Name, name: Name) {
    name <= item && Boundary(item, |name|)
  }

  /** The directory of a domain: the prefix closure of its items. */
  ghost predicate Lists(objects: seq<Entry>, domain: Name, name: Name) {
    exists o :: o in objects && o.domain == domain && IsPrefix(o.item, name)
  }

  /** The names of `objects` in `domain` past a continuation token. */
  ghost predicate Wanted(objects: seq<Entry>, domain: Name, after: Name, name: Name) {
    Lists(objects, domain, name) && (after == [] || Less(after, name))
  }

  ghost function WantedNames(objects: seq<Entry>, domain: Name, after: Name): iset<Name> {
    iset name | Wanted(objects, domain, after, name)
  }

  /**
   An object is listed under its own name unless that ends in the separator and no other
   item goes on from it with a further separator.
   */
  lemma ObjectListedExactly(objects: seq<Entry>, o: Entry)
    requires o in objects && o.item != []
    ensures Lists(objects, o.domain, o.item) <==>
      || o.item[|o.item| - 1] != DOLLAR
      || exists p :: p in objects && p.domain == o.domain && o.item + [DOLLAR] <= p.item
  {
    var n := |o.item|;
    assert o.item[n - 1] != DOLLAR ==> IsPrefix(o.item, o.item);
    forall p | p in objects
      ensures IsPrefix(p.item, o.item) && |p.item| > n <==> o.item + [DOLLAR] <= p.item
    {
      if o.item + [DOLLAR] <= p.item {
        assert (o.item + [DOLLAR])[n] == DOLLAR && (o.item + [DOLLAR])[..n] == o.item;
        assert p.item[..n + 1] == o.item + [DOLLAR];
        assert p.item[n] == p.item[..n + 1][n] && p.item[..n] == p.item[..n + 1][..n];
      }
    }
  }

  /** Every proper prefix at a separator is listed as well, so the hierarchy has no holes. */
  lemma ParentsAreListed(objects: seq<Entry>, domain: Name, name: Name, i: nat)
    requires Lists(objects, domain, name) && 0 < i < |name| && name[i] == DOLLAR
    ensures Lists(objects, domain, name[..i])
  {
    var o :| o in objects && o.domain == domain && IsPrefix(o.item, name);
    assert IsPrefix(o.item, name[..i]);
  }

  // ----- The bounded page

  /** `page` holds the smallest names of `seen`, at most `capacity` of them; `more` tells whether any was left out. */
  ghost predicate Best(page: seq<Name>, more: bool, seen: iset<Name>, capacity: nat) {
    && Rising(page) && |page| <= capacity
    && (forall x <- page :: x in seen)
    && (forall x :: x in seen && x !in page ==> |page| == capacity && forall y <- page :: Less(y, x))
    && (more <==> exists x :: x in seen && x !in page)
  }

  /** How many names of a page come before `v`. */
  function LowerBound(page: seq<Name>, v: Name): (k: nat)
    ensures k <= |page|
  {
    if page == [] then 0
    else if Less(page[0], v) then 1 + LowerBound(page[1..], v)
    else 0
  }

  lemma {:induction false} LowerBoundSplits(page: seq<Name>, v: Name)
    requires Rising(page)
    ensures var k := LowerBound(page, v);
      && (forall i :: 0 <= i < k ==> Less(page[i], v))
      && (forall i :: k <= i < |page| ==> page[i] == v || Less(v, page[i]))
      && (forall i :: k < i < |page| ==> Less(v, page[i]))
  {
    if page != [] {
      if Less(page[0], v) {
        LowerBoundSplits(page[1..], v);
        assert forall i :: 1 <= i < |page| ==> page[i] == page[1..][i - 1];
      } else {
        LessTotal(page[0], v);
        forall i | 0 < i < |page| ensures Less(v, page[i]) {
          if page[0] != v {
            LessTrans(v, page[0], page[i]);
          }
        }
      }
    }
  }

  function Insert(page: seq<Name>, more: bool, capacity: nat, v: Name): (seq<Name>, bool) {
    var k := LowerBound(page, v);
    if k < |page| && page[k] == v then (page, more)
    else if |page| < capacity then (page[..k] + [v] + page[k..], more)
    else if k == |page| then (page, true)
    else (page[..k] + [v] + page[k..|page| - 1], true)
  }

  lemma RisingInsert(page: seq<Name>, k: nat, v: Name, end: nat)
    requires Rising(page) && k <= end <= |page|
    requires forall i :: 0 <= i < k ==> Less(page[i], v)
    requires forall i :: k <= i < end ==> Less(v, page[i])
    ensures Rising(page[..k] + [v] + page[k..end])
  {
    var r := page[..k] + [v] + page[k..end];
    forall i, j | 0 <= i < j < |r| ensures Less(r[i], r[j]) {
      if i < k && j > k {
        LessTrans(page[i], v, page[j - 1]);
      }
    }
  }

  /** One more name seen: the page is again the best of what has been seen. */
  lemma InsertKeepsBest(page: seq<Name>, more: bool, seen: iset<Name>, capacity: nat, v: Name)
    requires Best(page, more, seen, capacity)
    ensures var (page', more') := Insert(page, more, capacity, v);
      Best(page', more', seen + iset{v}, capacity)
  {
    hide Best, Less, LowerBound;
    var k := LowerBound(page, v);
    BestBasics(page, more, seen, capacity);
    LowerBoundSplits(page, v);
    if k < |page| && page[k] == v {
      assert page[k] in page;
      assert seen + iset{v} == seen;
    } else if |page| < capacity {
      BestGrows(page, more, seen, capacity, v, k);
    } else if k == |page| {
      BestSkips(page, more, seen, capacity, v);
    } else {
      BestEvicts(page, more, seen, capacity, v, k);
    }
  }

  lemma BestBasics(page: seq<Name>, more: bool, seen: iset<Name>, capacity: nat)
    requires Best(page, more, seen, capacity)
    ensures Rising(page) && |page| <= capacity && forall x <- page :: x in seen
  {
  }

  lemma BestGrows(page: seq<Name>, more: bool, seen: iset<Name>, capacity: nat, v: Name, k: nat)
    requires Best(page, more, seen, capacity) && |page| < capacity && k <= |page|
    requires forall i :: 0 <= i < k ==> Less(page[i], v)
    requires forall i :: k <= i < |page| ==> Less(v, page[i])
    ensures Best(page[..k] + [v] + page[k..], more, seen + iset{v}, capacity)
  {
    hide Less;
    RisingInsert(page, k, v, |page|);
    var r := page[..k] + [v] + page[k..];
    assert forall x :: x in r <==> x in page || x == v by {
      assert page == page[..k] + page[k..];
    }
  }

  lemma BestSkips(page: seq<Name>, more: bool, seen: iset<Name>, capacity: nat, v: Name)
    requires Best(page, more, seen, capacity) && |page| == capacity
    requires forall i :: 0 <= i < |page| ==> Less(page[i], v)
    ensures Best(page, true, seen + iset{v}, capacity)
  {
    hide Less;
    assert v !in page by {
      forall i | 0 <= i < |page| ensures page[i] != v { LessOneWay(page[i], v); }
    }
    assert v in seen + iset{v};
  }

  lemma BestEvicts(page: seq<Name>, more: bool, seen: iset<Name>, capacity: nat, v: Name, k: nat)
    requires Best(page, more, seen, capacity) && |page| == capacity && k < |page|
    requires forall i :: 0 <= i < k ==> Less(page[i], v)
    requires forall i :: k <= i < |page| ==> Less(v, page[i])
    ensures Best(page[..k] + [v] + page[k..|page| - 1], true, seen + iset{v}, capacity)
  {
    hide Less;
    var n := |page| - 1;
    var r := page[..k] + [v] + page[k..n];
    RisingInsert(page, k, v, n);
    var last := page[n];
    assert last in page && last in seen;
    EvictedIsLast(page, v, k);
    assert forall x :: x in r <==> x == v || (x in page && x != last);
    var all := seen + iset{v};
    assert last in all && last !in r by {
      LessOneWay(v, last);
    }
    assert forall x <- r :: x in all;
    forall x, y | x in all && x !in r && y in r ensures Less(y, x) {
      if x !in page {
        LessTrans(y, last, x);
      }
    }
    assert |r| == capacity;
  }

  /** Shifting a full page up by one drops its last name and no other. */
  lemma EvictedIsLast(page: seq<Name>, v: Name, k: nat)
    requires Rising(page) && k < |page|
    requires forall i :: 0 <= i < k ==> Less(page[i], v)
    requires forall i :: k <= i < |page| ==> Less(v, page[i])
    ensures var r, last := page[..k] + [v] + page[k..|page| - 1], page[|page| - 1];
      && (forall x :: x in r <==> x == v || (x in page && x != last))
      && (forall y <- r :: Less(y, last))
  {
    hide Less;
    var n := |page| - 1;
    var r, last := page[..k] + [v] + page[k..n], page[n];
    forall i | 0 <= i < |r| ensures Less(r[i], last) && r[i] != last {
      if i < k {
        LessTrans(page[i], v, last);
      }
      LessOneWay(r[i], last);
    }
    assert r[k] == v;
    forall i | 0 <= i < n ensures page[i] in r {
      assert page[i] == r[if i < k then i else i + 1];
    }
    assert page == page[..n] + [last];
  }

  lemma BestOfNothing(capacity: nat)
    ensures Best([], false, iset{}, capacity)
  {
  }

  ghost function Members(s: seq<Name>): iset<Name> {
    iset x | x in s
  }

  /** A best page of the tail of a rising list is the front of that tail. */
  lemma {:induction false} BestIsFront(page: seq<Name>, more: bool, rest: seq<Name>, capacity: nat)
    requires Rising(rest) && Best(page, more, Members(rest), capacity)
    ensures page == rest[..if |rest| <= capacity then |rest| else capacity] && more == (|rest| > capacity)
  {
    if rest == [] || capacity == 0 {
      FirstIsMember(page);
      assert rest != [] ==> rest[0] in rest && rest[0] !in page;
    } else {
      FirstIsLeast(page, more, rest, capacity);
      BestTail(page, more, rest, capacity);
      BestIsFront(page[1..], more, rest[1..], capacity - 1);
    }
  }

  lemma FirstIsMember(page: seq<Name>)
    ensures page == [] || page[0] in page
  {
  }

  lemma FirstIsLeast(page: seq<Name>, more: bool, rest: seq<Name>, capacity: nat)
    requires rest != [] && capacity > 0 && Rising(rest) && Best(page, more, Members(rest), capacity)
    ensures page != [] && page[0] == rest[0]
  {
    var least := rest[0];
    forall x | x in rest && x != least ensures Less(least, x) && !Less(x, least) {
      LessOneWay(least, x);
    }
    assert page != [] ==> page[0] in page && page[0] in rest;
    assert least in Members(rest);
    assert least in page;
  }

  lemma RisingTail(names: seq<Name>)
    requires names != [] && Rising(names)
    ensures Rising(names[1..]) && forall x :: x in names[1..] <==> x in names && x != names[0]
  {
    var tail := names[1..];
    assert names == [names[0]] + tail;
    forall x ensures x in tail <==> x in names && x != names[0] {
      if x in tail {
        LessOneWay(names[0], x);
      }
    }
  }

  lemma BestTail(page: seq<Name>, more: bool, rest: seq<Name>, capacity: nat)
    requires rest != [] && capacity > 0 && Rising(rest) && Best(page, more, Members(rest), capacity)
    requires page != [] && page[0] == rest[0]
    ensures Best(page[1..], more, Members(rest[1..]), capacity - 1)
  {
    RisingTail(rest);
    RisingTail(page);
    BestWithout(page, page[1..], more, Members(rest), Members(rest[1..]), capacity, page[0]);
  }

  lemma BestWithout(page: seq<Name>, tail: seq<Name>, more: bool, seen: iset<Name>, fewer: iset<Name>, capacity: nat,
                    first: Name)
    requires capacity > 0 && Best(page, more, seen, capacity) && first in page
    requires Rising(tail) && |tail| == |page| - 1 && forall x :: x in tail <==> x in page && x != first
    requires forall x :: x in fewer <==> x in seen && x != first
    ensures Best(tail, more, fewer, capacity - 1)
  {
    hide Less, Rising;
    if more {
      var x :| x in seen && x !in page;
      assert x in fewer && x !in tail;
    }
  }

  // ----- Responses

  datatype Response = Listed(names: seq<Name>, more: bool) | NotFound | TooSmall

  /** All names of a directory, in order. */
  ghost predicate Enumerates(all: seq<Name>, objects: seq<Entry>, domain: Name) {
    Rising(all) && forall name :: name in all <==> Lists(objects, domain, name)
  }

  /** The names to list after a token: from the start, or right behind it. */
  ghost predicate StartsAt(all: seq<Name>, after: Name, start: nat) {
    start <= |all| && if after == [] then start == 0 else start > 0 && all[start - 1] == after
  }

  lemma StartExists(all: seq<Name>, after: Name) returns (start: nat)
    requires after == [] || after in all
    ensures StartsAt(all, after, start)
  {
    if after == [] {
      start := 0;
    } else {
      var i :| 0 <= i < |all| && all[i] == after;
      start := i + 1;
    }
  }

  lemma WantedIsTail(objects: seq<Entry>, domain: Name, after: Name, all: seq<Name>, start: nat)
    requires Enumerates(all, objects, domain) && StartsAt(all, after, start)
    ensures WantedNames(objects, domain, after) == Members(all[start..])
  {
    forall x ensures Wanted(objects, domain, after, x) <==> x in all[start..] {
      if after != [] {
        if x in all[start..] {
          var i :| start <= i < |all| && all[i] == x;
          assert Less(all[start - 1], all[i]);
        } else if x in all {
          assert all == all[..start] + all[start..];
          var i :| 0 <= i < start && all[..start][i] == x;
          if i < start - 1 {
            LessOneWay(all[i], all[start - 1]);
          } else if Less(after, x) {
            LessOneWay(after, x);
          }
        }
      } else {
        assert all[start..] == all;
      }
    }
  }

  /** std::lower_bound. */
  method FindLowerBound(page: array<Name>, count: nat, v: Name) returns (k: nat)
    requires count <= page.Length && Rising(page[..count])
    ensures k == LowerBound(page[..count], v)
  {
    hide Less;
    LowerBoundSplits(page[..count], v);
    ghost var bound := LowerBound(page[..count], v);
    var low, high := 0, count;
    while low < high
      invariant low <= bound <= high <= count
    {
      var mid := (low + high) / 2;
      assert page[..count][mid] == page[mid];
      if Less(page[mid], v) {
        NotBelow(page[..count], v, mid);
        low := mid + 1;
      } else {
        high := mid;
      }
    }
    k := low;
  }

  lemma NotBelow(page: seq<Name>, v: Name, i: nat)
    requires Rising(page) && i < |page| && Less(page[i], v)
    ensures i < LowerBound(page, v)
  {
    LowerBoundSplits(page, v);
    LessOneWay(page[i], v);
  }

  /** std::move_backward by one place, making room at `k`. */
  method ShiftUp(page: array<Name>, k: nat, end: nat)
    requires k <= end < page.Length
    modifies page
    ensures page[..k] == old(page[..k])
    ensures page[k + 1..end + 1] == old(page[k..end])
    ensures page[end + 1..] == old(page[end + 1..])
  {
    var i := end;
    while i > k
      invariant k <= i <= end
      invariant page[..i] == old(page[..i])
      invariant forall j :: i < j <= end ==> page[j] == old(page[j - 1])
      invariant page[end + 1..] == old(page[end + 1..])
    {
      assert page[i - 1] == page[..i][i - 1] == old(page[..i][i - 1]);
      page[i] := page[i - 1];
      i := i - 1;
      assert page[..i] == page[..i + 1][..i];
    }
  }

  method InsertSorted(page: array<Name>, count: nat, capacity: nat, v: Name, more: bool)
    returns (count': nat, more': bool)
    requires count <= capacity <= page.Length && Rising(page[..count])
    modifies page
    ensures count' <= capacity
    ensures (page[..count'], more') == Insert(old(page[..count]), more, capacity, v)
  {
    hide Rising, LowerBound, Less;
    ghost var was := page[..count];
    var k := FindLowerBound(page, count, v);
    if k != count && page[k] == v {
      return count, more;
    }
    if count < capacity {
      ShiftUp(page, k, count);
      assert page[k + 1..count + 1] == was[k..];
      page[k] := v;
      assert page[..k] == was[..k];
      assert page[..count + 1] == page[..k] + [v] + page[k + 1..count + 1];
      return count + 1, more;
    }
    if k == count {
      return count, true;
    }
    ShiftUp(page, k, count - 1);
    assert page[k + 1..count] == was[k..count - 1];
    page[k] := v;
    assert page[..k] == was[..k];
    assert page[..count] == page[..k] + [v] + page[k + 1..count];
    return count, true;
  }

  /** string_view::find; the length stands for npos. */
  method Find(item: Name, from: nat) returns (p: nat)
    requires from <= |item|
    ensures from <= p <= |item| && (p < |item| ==> item[p] == DOLLAR)
    ensures forall i :: from <= i < p ==> item[i] != DOLLAR
  {
    p := from;
    while p < |item| && item[p] != DOLLAR
      invariant from <= p <= |item|
      invariant forall i :: from <= i < p ==> item[i] != DOLLAR
    {
      p := p + 1;
    }
  }

  /** Names an item has contributed once the walk has come to octet `p`. */
  ghost function Contributed(item: Name, after: Name, p: int): iset<Name> {
    iset name | IsPrefix(item, name) && |name| < p && (after == [] || Less(after, name))
  }

  /** The state of a page being collected. */
  ghost predicate Collecting(page: array<Name>, count: nat, capacity: nat, more: bool, seen: iset<Name>)
    reads page
  {
    count <= capacity <= page.Length && Best(page[..count], more, seen, capacity)
  }

  /** One prefix of an item: recognized as the token, or offered to the page, or neither. */
  method Offer(
      page: array<Name>, count: nat, capacity: nat, more: bool, prefix: Name, after: Name, ghost seen: iset<Name>)
    returns (count': nat, more': bool)
    requires Collecting(page, count, capacity, more, seen)
    modifies page
    ensures Collecting(
      page, count', capacity, more',
      if after == [] || Less(after, prefix) then seen + iset{prefix} else seen)
  {
    hide Less, Insert, Rising;
    if after == [] || Less(after, prefix) {
      InsertKeepsBest(page[..count], more, seen, capacity, prefix);
      count', more' := InsertSorted(page, count, capacity, prefix, more);
    } else {
      count', more' := count, more;
    }
  }

  /** The walk over the prefixes of one item. */
  method Walk(
      page: array<Name>, count: nat, capacity: nat, more: bool, item: Name, after: Name, found: bool,
      ghost seen: iset<Name>)
    returns (count': nat, more': bool, found': bool)
    requires Collecting(page, count, capacity, more, seen)
    modifies page
    ensures Collecting(page, count', capacity, more', seen + Contributed(item, after, |item| + 1))
    ensures found' <==> found || (after != [] && IsPrefix(item, after))
  {
    hide Best, Less, Boundary;
    count', more', found' := count, more, found;
    var p := Find(item, 0);
    assert seen + Contributed(item, after, 0) == seen;
    NothingBetween(item, after, 0, p);
    while true
      invariant p <= |item| && (p < |item| ==> item[p] == DOLLAR)
      invariant p == |item| && p > 0 ==> item[p - 1] != DOLLAR
      invariant Collecting(page, count', capacity, more', seen + Contributed(item, after, p))
      invariant found' <==> found || (after != [] && IsPrefix(item, after) && |after| < p)
      decreases |item| - p
    {
      var prefix := item[..p];
      ContributedNext(item, after, p);
      if prefix != [] {
        if after != [] && prefix == after {
          found' := true;
        }
        count', more' := Offer(page, count', capacity, more', prefix, after, seen + Contributed(item, after, p));
        assert seen + Contributed(item, after, p) + iset{prefix} ==
               seen + (Contributed(item, after, p) + iset{prefix});
      }
      if p == |item| {
        return;
      }
      if p + 1 >= |item| {
        NothingBetween(item, after, p + 1, |item|);
        EndsInSeparator(item, after);
        return;
      }
      var q := Find(item, p + 1);
      NothingBetween(item, after, p + 1, q);
      p := q;
    }
  }

  lemma NothingBetween(item: Name, after: Name, p: nat, q: nat)
    requires p <= q <= |item| && forall i :: p <= i < q ==> item[i] != DOLLAR
    ensures Contributed(item, after, p) == Contributed(item, after, q)
    ensures IsPrefix(item, after) ==> !(p <= |after| < q)
  {
  }

  lemma ContributedNext(item: Name, after: Name, p: nat)
    requires p <= |item| && (p < |item| ==> item[p] == DOLLAR) && (p == |item| && p > 0 ==> item[p - 1] != DOLLAR)
    ensures Contributed(item, after, p + 1) ==
      if p > 0 && (after == [] || Less(after, item[..p])) then Contributed(item, after, p) + iset{item[..p]}
      else Contributed(item, after, p)
    ensures |after| == p > 0 ==> (IsPrefix(item, after) <==> after == item[..p])
  {
    forall name | |name| == p ensures IsPrefix(item, name) <==> p > 0 && name == item[..p] {
    }
  }

  lemma EndsInSeparator(item: Name, after: Name)
    requires item != [] && item[|item| - 1] == DOLLAR
    ensures Contributed(item, after, |item|) == Contributed(item, after, |item| + 1)
    ensures IsPrefix(item, after) ==> |after| < |item|
  {
  }

  lemma OneMoreObject(objects: seq<Entry>, n: nat, domain: Name, after: Name)
    requires n < |objects|
    ensures var o := objects[n];
      && WantedNames(objects[..n + 1], domain, after) ==
         WantedNames(objects[..n], domain, after) +
         (if o.domain == domain then Contributed(o.item, after, |o.item| + 1) else iset{})
      && (Lists(objects[..n + 1], domain, after) <==>
          Lists(objects[..n], domain, after) || (o.domain == domain && IsPrefix(o.item, after)))
  {
    var o := objects[n];
    forall name
      ensures Lists(objects[..n + 1], domain, name) <==>
        Lists(objects[..n], domain, name) || (o.domain == domain && IsPrefix(o.item, name))
    {
      assert objects[..n + 1] == objects[..n] + [o];
    }
  }

  /** What a request owes its client: the next names in order, and whether any are left. */
  function Slice(all: seq<Name>, start: nat, capacity: nat, fits: Option<nat>): Response
    requires start <= |all|
  {
    var left := |all| - start;
    if fits.None? || (left > 0 && fits.value == 0) then TooSmall
    else
      var limit := if capacity <= fits.value then capacity else fits.value;
      var n := if left <= limit then left else limit;
      Listed(all[start..][..n], left > n)
  }

  /** An error exactly if there is no room for what is owed at least; otherwise as many names as there is room for. */
  lemma SliceExactly(all: seq<Name>, start: nat, capacity: nat, fits: Option<nat>)
    requires start <= |all|
    ensures match Slice(all, start, capacity, fits)
      case NotFound => false
      case TooSmall => fits == None || (fits == Some(0) && start != |all|)
      case Listed(names, more) =>
        && fits.Some? && (fits.value > 0 || start == |all|)
        && |names| <= capacity && |names| <= fits.value && start + |names| <= |all|
        && names == all[start..start + |names|]
        && (more <==> start + |names| != |all|)
        && (more ==> |names| == capacity || |names| == fits.value)
  {
  }

  /**
   dispatch_domain_named_variable_page. `fits` is how many names the response buffer
   takes, None if not even an empty list; fewer than were collected makes the page
   shorter, and no room for a single one is an error.
   */
  method NameListPage(objects: seq<Entry>, domain: Name, after: Name, capacity: nat, fits: Option<nat>)
    returns (r: Response)
    requires capacity > 0
    ensures r.NotFound? <==> after != [] && !Lists(objects, domain, after)
    ensures !r.NotFound? ==> forall all, start: nat ::
      Enumerates(all, objects, domain) && StartsAt(all, after, start) ==> r == Slice(all, start, capacity, fits)
    ensures !r.NotFound? ==> exists all, start: nat :: Enumerates(all, objects, domain) && StartsAt(all, after, start)
  {
    hide Less, Best, Lists, Contributed, Enumerates, Rising;
    var page := new Name[capacity](_ => []);
    var count: nat, more, found := 0, false, after == [];
    BestOfNothing(capacity);
    NothingListed(domain, after);
    assert page[..0] == [] && objects[..0] == [];
    for n := 0 to |objects|
      invariant Collecting(page, count, capacity, more, WantedNames(objects[..n], domain, after))
      invariant found <==> after == [] || Lists(objects[..n], domain, after)
    {
      OneMoreObject(objects, n, domain, after);
      if objects[n].domain != domain {
        assert WantedNames(objects[..n], domain, after) + iset{} == WantedNames(objects[..n], domain, after);
        continue;
      }
      count, more, found :=
        Walk(page, count, capacity, more, objects[n].item, after, found, WantedNames(objects[..n], domain, after));
    }
    assert objects[..|objects|] == objects;
    if !found {
      return NotFound;
    }
    ghost var listing, first := ListingExists(objects, domain, after);
    var encoded := count;
    while fits.Some? && encoded > fits.value && encoded > 1
      invariant encoded <= count && (encoded == count || (fits.Some? && fits.value <= encoded))
      invariant count > 0 ==> encoded > 0
    {
      encoded := encoded - 1;
    }
    r := if fits.None? || encoded > fits.value then TooSmall else Listed(page[..encoded], more || encoded < count);
    assert page[..encoded] == page[..count][..encoded];
    forall all, start: nat | Enumerates(all, objects, domain) && StartsAt(all, after, start)
      ensures r == Slice(all, start, capacity, fits)
    {
      PageIsSlice(objects, domain, after, capacity, page[..count], more, all, start);
    }
  }

  lemma NothingListed(domain: Name, after: Name)
    ensures WantedNames([], domain, after) == iset{}
    ensures !Lists([], domain, after)
  {
  }

  lemma PageIsSlice(
    objects: seq<Entry>, domain: Name, after: Name, capacity: nat, page: seq<Name>, more: bool, all: seq<Name>,
    start: nat)
    requires Best(page, more, WantedNames(objects, domain, after), capacity)
    requires Enumerates(all, objects, domain) && StartsAt(all, after, start)
    ensures start <= |all|
    ensures page == all[start..][..if |all| - start <= capacity then |all| - start else capacity]
    ensures more == (|all| - start > capacity)
  {
    WantedIsTail(objects, domain, after, all, start);
    var rest := all[start..];
    assert forall i, j :: 0 <= i < j < |rest| ==> rest[i] == all[start + i] && rest[j] == all[start + j];
    BestIsFront(page, more, rest, capacity);
  }

  // ----- The whole directory

  function ItemNames(item: Name, i: nat): seq<Name>
    requires i <= |item|
  {
    if i == 0 then []
    else ItemNames(item, i - 1) + if Boundary(item, i) then [item[..i]] else []
  }

  function DomainNames(objects: seq<Entry>, domain: Name): seq<Name> {
    if objects == [] then []
    else
      var n := |objects| - 1;
      DomainNames(objects[..n], domain) +
      if objects[n].domain == domain then ItemNames(objects[n].item, |objects[n].item|) else []
  }

  lemma {:induction false} ItemNamesAre(item: Name, i: nat, name: Name)
    requires i <= |item|
    ensures name in ItemNames(item, i) <==> IsPrefix(item, name) && |name| <= i
  {
    if i > 0 {
      ItemNamesAre(item, i - 1, name);
      assert name <= item && |name| == i <==> name == item[..i];
    }
  }

  lemma {:induction false} DomainNamesAre(objects: seq<Entry>, domain: Name, name: Name)
    ensures name in DomainNames(objects, domain) <==> Lists(objects, domain, name)
  {
    if objects != [] {
      var n := |objects| - 1;
      DomainNamesAre(objects[..n], domain, name);
      ItemNamesAre(objects[n].item, |objects[n].item|, name);
      assert objects == objects[..n] + [objects[n]];
    }
  }

  lemma {:induction false} SortedExists(names: seq<Name>) returns (all: seq<Name>)
    ensures Best(all, false, Members(names), |names|)
  {
    if names == [] {
      all := [];
      assert Members(names) == iset{};
      BestOfNothing(0);
    } else {
      var n := |names| - 1;
      var sofar := SortedExists(names[..n]);
      assert Best(sofar, false, Members(names[..n]), n + 1);
      InsertKeepsBest(sofar, false, Members(names[..n]), n + 1, names[n]);
      assert names == names[..n] + [names[n]];
      assert Members(names) == Members(names[..n]) + iset{names[n]};
      all := Insert(sofar, false, n + 1, names[n]).0;
    }
  }

  /** Every domain has its names in order, and only one such order. */
  lemma EnumerationExists(objects: seq<Entry>, domain: Name) returns (all: seq<Name>)
    ensures Enumerates(all, objects, domain)
    ensures forall other :: Enumerates(other, objects, domain) ==> other == all
  {
    var names := DomainNames(objects, domain);
    all := SortedExists(names);
    forall name ensures name in all <==> Lists(objects, domain, name) {
      DomainNamesAre(objects, domain, name);
      assert name in Members(names) <==> name in names;
    }
    forall other | Enumerates(other, objects, domain) ensures other == all {
      var capacity := |all| + |other|;
      assert Best(all, false, Members(other), capacity);
      BestIsFront(all, false, other, capacity);
    }
  }

  /** Where a listing after a token starts, if there is such a token. */
  lemma ListingExists(objects: seq<Entry>, domain: Name, after: Name) returns (all: seq<Name>, start: nat)
    requires after == [] || Lists(objects, domain, after)
    ensures Enumerates(all, objects, domain) && StartsAt(all, after, start)
  {
    all := EnumerationExists(objects, domain);
    start := StartExists(all, after);
  }

  /**
   A client that follows continueAfter with the last name it was given gets every name of
   the hierarchy, in order and once, whatever page size the server has and however few
   names each response takes; with room for full pages it needs the fewest requests.
   */
  method Discover(objects: seq<Entry>, domain: Name, capacity: nat, fits: nat -> nat)
    returns (names: seq<Name>, requests: nat)
    requires capacity > 0 && forall i :: fits(i) > 0
    ensures Enumerates(names, objects, domain)
    ensures (forall i :: fits(i) >= capacity) ==> FullPages(|names|, requests, capacity)
  {
    hide Enumerates, FullPages, Slice;
    ghost var all := EnumerationExists(objects, domain);
    names, requests := [], 0;
    var after, more := [], true;
    FirstPage(capacity);
    while more
      invariant |names| <= |all| && names == all[..|names|]
      invariant more ==> StartsAt(all, after, |names|) && (after == [] || Lists(objects, domain, after))
      invariant !more ==> names == all
      invariant (forall i :: fits(i) >= capacity) ==>
        if more then |names| == requests * capacity && (requests > 0 ==> |names| < |all|)
        else FullPages(|names|, requests, capacity)
      decreases more, |all| - |names|
    {
      ghost var start := |names|;
      var r := NameListPage(objects, domain, after, capacity, Some(fits(requests)));
      assert r == Slice(all, start, capacity, Some(fits(requests)));
      SliceFacts(all, start, capacity, fits(requests));
      names := names + r.names;
      if fits(requests) >= capacity {
        PageCount(start, requests, capacity, |all|);
      }
      requests := requests + 1;
      more := r.more;
      if more {
        after := names[|names| - 1];
        ListedNames(objects, domain, all, |names| - 1);
      }
    }
  }

  /** So many names in the fewest requests: all pages full but the last, which is not empty. */
  predicate FullPages(n: nat, requests: nat, capacity: nat) {
    requests > 0 && n <= requests * capacity && (requests == 1 || (requests - 1) * capacity < n)
  }

  lemma FirstPage(capacity: nat)
    ensures 0 * capacity == 0
  {
  }

  lemma PageCount(start: nat, requests: nat, capacity: nat, total: nat)
    requires capacity > 0 && start <= total
    ensures start == requests * capacity && start + capacity < total ==> start + capacity == (requests + 1) * capacity
    ensures start == requests * capacity && total <= start + capacity && (requests > 0 ==> start < total) ==>
      FullPages(total, requests + 1, capacity)
  {
    Distribute(requests + 1, capacity);
  }

  lemma SliceFacts(all: seq<Name>, start: nat, capacity: nat, fits: nat)
    requires start <= |all| && capacity > 0 && fits > 0
    ensures var r := Slice(all, start, capacity, Some(fits));
      && r.Listed? && start + |r.names| <= |all|
      && all[..start] + r.names == all[..start + |r.names|]
      && (r.more <==> start + |r.names| < |all|) && (r.more ==> r.names != [])
      && (fits >= capacity ==> |r.names| == if |all| - start <= capacity then |all| - start else capacity)
  {
  }

  lemma ListedNames(objects: seq<Entry>, domain: Name, all: seq<Name>, i: nat)
    requires Enumerates(all, objects, domain) && i < |all|
    ensures all[i] != [] && Lists(objects, domain, all[i])
  {
    assert all[i] in all;
  }
}
