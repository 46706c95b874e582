/**
  The order of the connection attempts in src/shared/happy-eyeballs.c: build_addr_list relinks
  the address list in place so that the families alternate, and happy_eyeballs_connect tries
  the addresses in that order until a family repeats.
 */
module AddrInterleave {
  import opened Common

  const AF_INET: int := 2
  const AF_INET6: int := 10
  const MAX_ATTEMPTS: nat := 6

  class AddrInfo {
    const family: int
    var next: AddrInfo?

    constructor (family: int)
      ensures this.family == family && next == null
    {
      this.family := family;
      next := null;
    }
  }

  predicate IsIp(family: int) {
    family == AF_INET || family == AF_INET6
  }

  function Target(family: int): int {
    if family == AF_INET then AF_INET6 else AF_INET
  }

  // ----- the order --------------------------------------------------------

  // The first address of the family from position k on, or the length if there is none.
  function FirstOf(rest: seq<AddrInfo>, family: int, k: nat): (r: nat)
    requires k <= |rest|
    ensures k <= r <= |rest| && (r < |rest| ==> rest[r].family == family)
    ensures forall i :: k <= i < r ==> rest[i].family != family
    decreases |rest| - k
  {
    if k == |rest| || rest[k].family == family then k else FirstOf(rest, family, k + 1)
  }

  // The addresses after `prev` as the outer loop leaves them.
  function Reordered(prev: AddrInfo, rest: seq<AddrInfo>): (r: seq<AddrInfo>)
    ensures |r| == |rest|
    decreases |rest|
  {
    if rest == [] then []
    else if prev.family == rest[0].family && IsIp(rest[0].family) then
      var k := FirstOf(rest, Target(prev.family), 1);
      if k == |rest| then rest
      else [rest[k], rest[0]] + Reordered(rest[0], rest[1..k] + rest[k + 1..])
    else [rest[0]] + Reordered(rest[0], rest[1..])
  }

  function Interleaved(list: seq<AddrInfo>): (r: seq<AddrInfo>)
    requires list != []
    ensures |r| == |list| && r[0] == list[0]
  {
    [list[0]] + Reordered(list[0], list[1..])
  }

  // ----- relinking --------------------------------------------------------

  ghost predicate Linked(list: seq<AddrInfo>)
    reads list
  {
    forall i :: 0 <= i < |list| ==> list[i].next == NodeAt(list, i + 1)
  }

  function NodeAt(list: seq<AddrInfo>, i: nat): AddrInfo? {
    if i < |list| then list[i] else null
  }

  ghost predicate Distinct(list: seq<AddrInfo>) {
    forall i, j {:trigger Differ(list, i, j)} :: 0 <= i < j < |list| ==> Differ(list, i, j)
  }

  ghost predicate Differ(list: seq<AddrInfo>, i: nat, j: nat)
    requires i < |list| && j < |list|
  {
    list[i] != list[j]
  }

  // list with the node at q moved to position p.
  function Moved(list: seq<AddrInfo>, p: nat, q: nat): (r: seq<AddrInfo>)
    requires p <= q < |list|
    ensures |r| == |list|
    ensures forall i :: 0 <= i < |list| ==> r[i] == if p < i <= q then list[i - 1] else if i == p then list[q]
            else list[i]
  {
    list[..p] + [list[q]] + list[p..q] + list[q + 1..]
  }

  lemma MovedIsDistinct(list: seq<AddrInfo>, p: nat, q: nat)
    requires p <= q < |list| && Distinct(list)
    ensures Distinct(Moved(list, p, q)) && multiset(Moved(list, p, q)) == multiset(list)
  {
    assert list == list[..p] + list[p..q] + [list[q]] + list[q + 1..];
    var r := Moved(list, p, q);
    forall i, j | 0 <= i < j < |r|
      ensures Differ(r, i, j)
    {
      var k := if p < i <= q then i - 1 else if i == p then q else i;
      var l := if p < j <= q then j - 1 else if j == p then q else j;
      assert Differ(list, Min(k, l), Max(k, l));
    }
  }

  // The three assignments that take `it` out and put it between `prev` and `cur`.
  method Relink(ghost list: seq<AddrInfo>, ghost p: nat, ghost q: nat, prev: AddrInfo, cur: AddrInfo,
                prevIt: AddrInfo, it: AddrInfo)
    requires 0 < p < q < |list| && Linked(list) && Distinct(list)
    requires prev == list[p - 1] && cur == list[p] && prevIt == list[q - 1] && it == list[q]
    modifies prev`next, prevIt`next, it`next
    ensures Linked(Moved(list, p, q))
  {
    forall k: nat | k < |list|
      ensures (list[k] == prev <==> k == p - 1) && (list[k] == prevIt <==> k == q - 1) && (list[k] == it <==> k == q)
    {
      OnlyAt(list, k, p - 1);
      OnlyAt(list, k, q - 1);
      OnlyAt(list, k, q);
    }
    prev.next := it;
    prevIt.next := it.next;
    it.next := cur;
    assert forall k: nat :: k < |list| ==> list[k].next == NextAfter(list, p, q, k);
    RelinkedIsLinked(list, p, q);
  }

  ghost predicate Within(order: seq<AddrInfo>, list: seq<AddrInfo>) {
    forall i :: 0 <= i < |order| ==> order[i] in list
  }

  // Where the node at k points to after the move of the node at q to p.
  function NextAfter(list: seq<AddrInfo>, p: nat, q: nat, k: nat): AddrInfo?
    requires 0 < p < q < |list|
  {
    if k == p - 1 then list[q] else if k == q - 1 then NodeAt(list, q + 1) else if k == q then list[p]
        else NodeAt(list, k + 1)
  }

  lemma RelinkedIsLinked(list: seq<AddrInfo>, p: nat, q: nat)
    requires 0 < p < q < |list|
    requires forall k: nat :: k < |list| ==> list[k].next == NextAfter(list, p, q, k)
    ensures Linked(Moved(list, p, q))
  {
    var r := Moved(list, p, q);
    forall i | 0 <= i < |r|
      ensures r[i].next == NodeAt(r, i + 1)
    {
      var k := if p < i <= q then i - 1 else if i == p then q else i;
      assert r[i] == list[k] && list[k].next == NextAfter(list, p, q, k);
      assert NextAfter(list, p, q, k) == NodeAt(r, i + 1);
    }
  }

  lemma OnlyAt(list: seq<AddrInfo>, k: nat, at: nat)
    requires k < |list| && at < |list| && Distinct(list)
    ensures list[k] == list[at] <==> k == at
  {
    if k != at {
      assert Differ(list, Min(k, at), Max(k, at));
    }
  }

  // The inner loop: looks for the next address of the other family.
  method Find(ghost list: seq<AddrInfo>, ghost p: nat, cur: AddrInfo, target: int)
    returns (it: AddrInfo?, prevIt: AddrInfo, ghost q: nat)
    requires p < |list| && Linked(list) && cur == list[p]
    ensures q == p + FirstOf(list[p..], target, 1)
    ensures it == NodeAt(list, q) && prevIt == list[q - 1] && p < q <= |list|
  {
    it, prevIt, q := cur.next, cur, p + 1;
    while it != null
      invariant p < q <= |list| && it == NodeAt(list, q) && prevIt == list[q - 1]
      invariant FirstOf(list[p..], target, 1) == FirstOf(list[p..], target, q - p)
      decreases |list| - q
    {
      if it.family == target {
        break;
      }
      prevIt := it;
      it := it.next;
      q := q + 1;
    }
  }

  // What the outer loop keeps: the first p nodes are in place.
  ghost predicate InPlace(goal: seq<AddrInfo>, list: seq<AddrInfo>, p: nat)
    requires 0 < p <= |list|
  {
    goal == list[..p] + Reordered(list[p - 1], list[p..])
  }

  lemma MovesOne(goal: seq<AddrInfo>, list: seq<AddrInfo>, p: nat, q: nat)
    requires 0 < p < q < |list| && InPlace(goal, list, p)
    requires list[p - 1].family == list[p].family && IsIp(list[p].family)
             && q == p + FirstOf(list[p..], Target(list[p].family), 1)
    ensures InPlace(goal, Moved(list, p, q), p + 2)
  {
    var r := Moved(list, p, q);
    var rest := list[p..];
    var k := q - p;
    assert r[p + 1] == rest[0] && r[p] == rest[k];
    assert r[p + 2..] == rest[1..k] + rest[k + 1..];
    assert r[..p + 2] == list[..p] + [rest[k], rest[0]];
    Associative(list[..p], [rest[k], rest[0]], Reordered(rest[0], r[p + 2..]));
  }

  lemma KeepsOne(goal: seq<AddrInfo>, list: seq<AddrInfo>, p: nat)
    requires 0 < p < |list| && !(list[p - 1].family == list[p].family && IsIp(list[p].family)) && InPlace(goal, list, p)
    ensures InPlace(goal, list, p + 1)
  {
    assert list[..p + 1] == list[..p] + [list[p]] && list[p..][1..] == list[p + 1..];
    Associative(list[..p], [list[p]], Reordered(list[p], list[p + 1..]));
  }

  lemma Stops(goal: seq<AddrInfo>, list: seq<AddrInfo>, p: nat)
    requires 0 < p <= |list| && InPlace(goal, list, p) && Reordered(list[p - 1], list[p..]) == list[p..]
    ensures goal == list
  {
    assert list[..p] + list[p..] == list;
  }

  lemma Starts(list: seq<AddrInfo>)
    requires list != []
    ensures InPlace(Interleaved(list), list, 1)
  {
    assert list[..1] == [list[0]];
  }

  // Two addresses of one family in a row: puts the next one of the other family between them.
  method BringForward(ghost goal: seq<AddrInfo>, ghost list: seq<AddrInfo>, ghost order: seq<AddrInfo>,
                      ghost p: nat, prev: AddrInfo, cur: AddrInfo)
    returns (found: bool, ghost after: seq<AddrInfo>)
    requires 1 <= p < |order| == |list| && prev == order[p - 1] && cur == order[p] && prev.family == cur.family
             && IsIp(cur.family)
    requires Linked(order) && Distinct(order) && multiset(order) == multiset(list) && Within(order, list)
             && InPlace(goal, order, p)
    modifies list
    ensures |after| == |list| && Linked(after) && Distinct(after) && multiset(after) == multiset(list)
            && Within(after, list)
    ensures if found then p + 2 <= |after| && after[p + 1] == cur && InPlace(goal, after, p + 2)
            else after == order == goal
  {
    var it, prevIt; ghost var q;
    it, prevIt, q := Find(order, p, cur, Target(prev.family));
    found := it != null;
    after := order;
    if it == null {
      Stops(goal, order, p);
    } else {
      MovedIsDistinct(order, p, q);
      MovesOne(goal, order, p, q);
      assert prev in list && prevIt in list && it in list;
      Relink(order, p, q, prev, cur, prevIt, it);
      MovedStaysWithin(order, list, p, q);
      after := Moved(order, p, q);
    }
  }

  /**
    The reorder loop of build_addr_list.  `list` is the chain of nodes that starts at head;
    the loop ends and leaves the same nodes, chained in the interleaved order.
   */
  method Interleave(head: AddrInfo, ghost list: seq<AddrInfo>) returns (ghost order: seq<AddrInfo>)
    requires list != [] && head == list[0] && Linked(list) && Distinct(list)
    modifies list
    ensures order == Interleaved(list) && Linked(order) && Distinct(order) && multiset(order) == multiset(list)
  {
    order := list;
    ghost var goal := Interleaved(list);
    ghost var p: nat := 1;
    Starts(list);
    var prev, cur := head, head.next;
    while cur != null
      invariant 1 <= p <= |order| == |list| && prev == order[p - 1] && cur == NodeAt(order, p)
      invariant Linked(order) && Distinct(order) && multiset(order) == multiset(list)
      invariant Within(order, list)
      invariant InPlace(goal, order, p)
      decreases |list| - p
    {
      if prev.family == cur.family && IsIp(cur.family) {
        var found;
        found, order := BringForward(goal, list, order, p, prev, cur);
        if !found {
          return order;
        }
        p := p + 2;
      } else {
        KeepsOne(goal, order, p);
        p := p + 1;
      }
      prev := cur;
      cur := cur.next;
    }
    Stops(goal, order, p);
  }

  lemma MovedStaysWithin(order: seq<AddrInfo>, list: seq<AddrInfo>, p: nat, q: nat)
    requires p <= q < |order| && Within(order, list)
    ensures Within(Moved(order, p, q), list)
  {
  }

  // ----- what the order is good for ---------------------------------------

  function OfFamily(list: seq<AddrInfo>, family: int): (r: seq<AddrInfo>) {
    if list == [] then [] else (if list[0].family == family then [list[0]] else []) + OfFamily(list[1..], family)
  }

  lemma {:induction false} OfFamilyAppend(a: seq<AddrInfo>, b: seq<AddrInfo>, family: int)
    ensures OfFamily(a + b, family) == OfFamily(a, family) + OfFamily(b, family)
  {
    if a == [] {
      assert a + b == b;
    } else {
      assert (a + b)[1..] == a[1..] + b;
      OfFamilyAppend(a[1..], b, family);
      var first := if a[0].family == family then [a[0]] else [];
      Associative(first, OfFamily(a[1..], family), OfFamily(b, family));
    }
  }

  lemma {:induction false} NoneOfFamily(a: seq<AddrInfo>, family: int)
    requires forall i :: 0 <= i < |a| ==> a[i].family != family
    ensures OfFamily(a, family) == []
  {
    if a != [] {
      NoneOfFamily(a[1..], family);
    }
  }

  lemma {:induction false} SomeOfFamily(a: seq<AddrInfo>, family: int)
    requires OfFamily(a, family) == []
    ensures forall i :: 0 <= i < |a| ==> a[i].family != family
  {
    if a != [] {
      assert a[0].family != family && OfFamily(a[1..], family) == [];
      SomeOfFamily(a[1..], family);
    }
  }

  lemma MoveKeepsFamily(rest: seq<AddrInfo>, k: nat, family: int)
    requires 0 < k < |rest| && forall i :: 0 <= i < k ==> rest[i].family != rest[k].family
    ensures OfFamily([rest[k], rest[0]] + (rest[1..k] + rest[k + 1..]), family) == OfFamily(rest, family)
  {
    var a, x, b := rest[..k], [rest[k]], rest[k + 1..];
    assert [rest[k], rest[0]] + (rest[1..k] + rest[k + 1..]) == x + (a + b);
    assert rest == a + (x + b);
    SwapKeepsFamily(a, x, b, family);
  }

  lemma SwapKeepsFamily(a: seq<AddrInfo>, x: seq<AddrInfo>, b: seq<AddrInfo>, family: int)
    requires |x| == 1 && forall i :: 0 <= i < |a| ==> a[i].family != x[0].family
    ensures OfFamily(x + (a + b), family) == OfFamily(a + (x + b), family)
  {
    OfFamilyAppend(x, a + b, family);
    OfFamilyAppend(a, b, family);
    OfFamilyAppend(a, x + b, family);
    OfFamilyAppend(x, b, family);
    if family == x[0].family {
      NoneOfFamily(a, family);
      assert [] + (OfFamily(x, family) + OfFamily(b, family)) == OfFamily(x, family) + ([] + OfFamily(b, family));
    } else {
      NoneOfFamily(x, family);
      assert [] + (OfFamily(a, family) + OfFamily(b, family)) == OfFamily(a, family) + ([] + OfFamily(b, family));
    }
  }

  lemma {:induction false} ReorderKeepsFamilies(prev: AddrInfo, rest: seq<AddrInfo>, family: int)
    ensures OfFamily(Reordered(prev, rest), family) == OfFamily(rest, family)
    decreases |rest|
  {
    if rest == [] {
    } else if prev.family == rest[0].family && IsIp(rest[0].family) {
      var k := FirstOf(rest, Target(prev.family), 1);
      if k < |rest| {
        var left := rest[1..k] + rest[k + 1..];
        ReorderKeepsFamilies(rest[0], left, family);
        MoveKeepsFamily(rest, k, family);
        OfFamilyAppend([rest[k], rest[0]], left, family);
        OfFamilyAppend([rest[k], rest[0]], Reordered(rest[0], left), family);
      }
    } else {
      ReorderKeepsFamilies(rest[0], rest[1..], family);
      OfFamilyAppend([rest[0]], Reordered(rest[0], rest[1..]), family);
    }
  }

  /**
    The addresses of each family keep their order, and the first address stays first.
   */
  lemma OrderWithinFamilies(list: seq<AddrInfo>, family: int)
    requires list != []
    ensures OfFamily(Interleaved(list), family) == OfFamily(list, family) && Interleaved(list)[0] == list[0]
  {
    ReorderKeepsFamilies(list[0], list[1..], family);
    OfFamilyAppend([list[0]], Reordered(list[0], list[1..]), family);
    OfFamilyAppend([list[0]], list[1..], family);
    assert [list[0]] + list[1..] == list;
  }

  ghost predicate AllIp(list: seq<AddrInfo>) {
    forall i :: 0 <= i < |list| ==> IsIp(list[i].family)
  }

  /**
    What is neither an IPv4 nor an IPv6 address is left where it is.
   */
  lemma OthersStay(list: seq<AddrInfo>)
    requires list != [] && forall i :: 0 <= i < |list| ==> list[i].family != 2 && list[i].family != 10
    ensures Interleaved(list) == list
  {
    NoneReordered(list[0], list[1..]);
  }

  lemma {:induction false} NoneReordered(prev: AddrInfo, rest: seq<AddrInfo>)
    requires forall i :: 0 <= i < |rest| ==> rest[i].family != 2 && rest[i].family != 10
    ensures Reordered(prev, rest) == rest
    decreases |rest|
  {
    if rest != [] {
      NoneReordered(rest[0], rest[1..]);
    }
  }

  /**
    An IPv4 address behind another brings the first IPv6 address forward, and the other way
    round; the two are the address families 2 and 10.
   */
  lemma BringsForward(prev: AddrInfo, rest: seq<AddrInfo>, k: nat)
    requires 1 <= k < |rest| && prev.family == rest[0].family
    requires forall i :: 0 <= i < k ==> rest[i].family == prev.family
    requires (prev.family == 2 && rest[k].family == 10) || (prev.family == 10 && rest[k].family == 2)
    ensures Reordered(prev, rest) == [rest[k], rest[0]] + Reordered(rest[0], rest[1..k] + rest[k + 1..])
  {
  }

  // Adjacent addresses differ in family up to n, and from n - 1 on all are of one family.
  ghost predicate AlternatesTo(list: seq<AddrInfo>, n: nat) {
    && 1 <= n <= |list|
    && (forall i {:trigger Repeats(list, i)} :: 1 <= i < n ==> !Repeats(list, i))
    && (forall i :: n <= i < |list| ==> list[i].family == list[n - 1].family)
  }

  predicate Repeats(list: seq<AddrInfo>, i: nat)
    requires 1 <= i < |list|
  {
    list[i].family == list[i - 1].family
  }

  lemma AlternationGrows(a: AddrInfo, list: seq<AddrInfo>, n: nat)
    requires AlternatesTo(list, n) && a.family != list[0].family
    ensures AlternatesTo([a] + list, n + 1)
  {
    var r := [a] + list;
    forall i | 1 <= i < n + 1
      ensures !Repeats(r, i)
    {
      assert r[i] == list[i - 1];
      if i > 1 {
        assert !Repeats(list, i - 1) && r[i - 1] == list[i - 2];
      }
    }
    assert forall i :: n + 1 <= i < |r| ==> r[i] == list[i - 1];
    assert r[n] == list[n - 1];
  }

  lemma TwoMore(a: AddrInfo, b: AddrInfo, c: AddrInfo, list: seq<AddrInfo>, n: nat)
    requires AlternatesTo([c] + list, n) && a.family != b.family && b.family != c.family
    ensures AlternatesTo([a] + ([b, c] + list), n + 2)
  {
    AlternationGrows(b, [c] + list, n);
    AlternationGrows(a, [b] + ([c] + list), n + 1);
    assert [b] + ([c] + list) == [b, c] + list;
  }

  lemma {:induction false} ReorderAlternates(prev: AddrInfo, rest: seq<AddrInfo>) returns (n: nat)
    requires IsIp(prev.family) && AllIp(rest)
    ensures AlternatesTo([prev] + Reordered(prev, rest), n)
    decreases |rest|
  {
    if rest == [] {
      n := 1;
    } else if prev.family == rest[0].family {
      var k := FirstOf(rest, Target(prev.family), 1);
      if k == |rest| {
        n := 1;
      } else {
        var left := rest[1..k] + rest[k + 1..];
        n := ReorderAlternates(rest[0], left);
        TwoMore(prev, rest[k], rest[0], Reordered(rest[0], left), n);
        n := n + 2;
      }
    } else {
      n := ReorderAlternates(rest[0], rest[1..]);
      AlternationGrows(prev, [rest[0]] + Reordered(rest[0], rest[1..]), n);
      n := n + 1;
    }
  }

  /**
    The families alternate strictly until only one family is left.
   */
  lemma InterleavedAlternates(list: seq<AddrInfo>) returns (n: nat)
    requires list != [] && AllIp(list)
    ensures AlternatesTo(Interleaved(list), n)
  {
    n := ReorderAlternates(list[0], list[1..]);
  }

  // ----- the attempts -----------------------------------------------------

  // The address the dispatch loop comes to after n attempts that did not end the race.
  method Attempts(head: AddrInfo, ghost list: seq<AddrInfo>) returns (n: nat)
    requires list != [] && head == list[0] && Linked(list) && IsIp(head.family)
    ensures 1 <= n <= 6 && n <= |list|
    ensures forall i :: 1 <= i < n ==> list[i].family != list[i - 1].family
    ensures n == 6 || n == |list| || list[n].family == list[n - 1].family
  {
    var prevFamily := 0;
    var next: AddrInfo? := head;
    n := 0;
    while n < MAX_ATTEMPTS && next != null && next.family != prevFamily
      invariant 0 <= n <= Min(MAX_ATTEMPTS, |list|) && next == NodeAt(list, n)
      invariant prevFamily == if n == 0 then 0 else list[n - 1].family
      invariant forall i :: 1 <= i < n ==> list[i].family != list[i - 1].family
      decreases MAX_ATTEMPTS - n
    {
      prevFamily := next.family;
      next := next.next;
      n := n + 1;
    }
  }

  /**
    The attempts alternate strictly, and stop short of six only when no address of the other
    family is left.
   */
  lemma AttemptsExhaustAFamily(list: seq<AddrInfo>, n: nat)
    requires list != [] && AllIp(list)
    requires var r := Interleaved(list);
             1 <= n < |r| && n < 6 && Repeats(r, n) && forall i :: 1 <= i < n ==> !Repeats(r, i)
    ensures forall i :: n <= i < |list| ==> Interleaved(list)[i].family == Interleaved(list)[n - 1].family
  {
    var m := InterleavedAlternates(list);
    var r := Interleaved(list);
    FirstRepeat(r, n, m);
  }

  lemma FirstRepeat(list: seq<AddrInfo>, n: nat, m: nat)
    requires AlternatesTo(list, m) && 1 <= n < |list| && Repeats(list, n) && forall i :: 1 <= i < n ==>
             !Repeats(list, i)
    ensures n == m
  {
    var repeats := m < |list| && Repeats(list, m);
  }

  ghost predicate BothFamilies(list: seq<AddrInfo>) {
    exists i :: 0 <= i < |list| && list[i].family != list[0].family
  }

  /**
    The second attempt is of the other family if and only if the list holds both.
   */
  lemma SecondIsOfTheOther(list: seq<AddrInfo>)
    requires list != [] && AllIp(list)
    ensures BothFamilies(list) <==> |list| >= 2 && !Repeats(Interleaved(list), 1)
  {
    var r := Interleaved(list);
    var first := list[0].family;
    if BothFamilies(list) {
      var i :| 0 <= i < |list| && list[i].family != first;
      var other := list[i].family;
      OrderWithinFamilies(list, other);
      if Repeats(r, 1) {
        AttemptsExhaustAFamily(list, 1);
        NoneOfFamily(r, other);
        SomeOfFamily(list, other);
        assert false;
      }
    } else if |list| >= 2 {
      var second := r[1].family;
      OrderWithinFamilies(list, second);
      if second != first {
        NoneOfFamily(list, second);
        SomeOfFamily(r, second);
        assert false;
      }
    }
  }
}
