/** The SUPERSEDES chain export (api/src/exports/change-traceability.ts).

    The input is the query's row list; `intent` stands for the masked initial intent, and a
    timestamp for its rank in the collation order the export sorts by. A JavaScript `Map` iterates
    in order of first insertion, so it is modelled as a key list together with a `map`. */
module ChangeTraceability {
  import opened Basics

  datatype Row = Row(
    turnId: string, sessionId: string, timestamp: int, model: string, intent: string,
    toolName: string, supersedes: Option<string>, requestHash: string)

  datatype Change = Change(
    turnId: string, sessionId: string, timestamp: int, model: string, intent: string,
    toolName: string, supersedes: Option<string>)

  datatype Export = Export(
    changeHistory: seq<Change>, originatingIntent: Option<string>, chainLength: nat,
    firstHash: Option<string>, latestHash: Option<string>, sessionCount: nat)

  const NO_CHANGES: Export := Export([], None, 0, None, None, 0)

  type Turns = map<string, Row>

  // ----- The maps built from the rows -----

  function LastRow(rows: seq<Row>): Turns
    decreases |rows|
  {
    if rows == [] then map[] else LastRow(rows[..|rows| - 1])[rows[|rows| - 1].turnId := rows[|rows| - 1]]
  }

  /** Turn ids in order of first appearance. */
  function FirstSeen(rows: seq<Row>): seq<string>
    decreases |rows|
  {
    if rows == [] then []
    else
      var before, id := FirstSeen(rows[..|rows| - 1]), rows[|rows| - 1].turnId;
      if id in before then before else before + [id]
  }

  ghost predicate Distinct(ids: seq<string>) {
    forall i, j :: 0 <= i < j < |ids| ==> ids[i] != ids[j]
  }

  lemma {:induction false} OrderListsTurns(rows: seq<Row>)
    ensures Distinct(FirstSeen(rows))
    ensures forall id :: id in FirstSeen(rows) <==> id in LastRow(rows)
    ensures forall id :: id in LastRow(rows) ==> LastRow(rows)[id].turnId == id
    decreases |rows|
  {
    if rows != [] {
      OrderListsTurns(rows[..|rows| - 1]);
    }
  }

  /** The turn a turn supersedes, when that one touches the artifact too. */
  function Parent(m: Turns, id: string): Option<string>
    requires id in m
  {
    if m[id].supersedes.Some? && m[id].supersedes.value in m then m[id].supersedes else None
  }

  function Roots(m: Turns, order: seq<string>): seq<string>
    requires forall id :: id in order ==> id in m
    decreases |order|
  {
    if order == [] then []
    else
      var k := |order| - 1;
      Roots(m, order[..k]) + if Parent(m, order[k]).None? then [order[k]] else []
  }

  /** The turns that supersede `id`, in order. */
  function Children(m: Turns, order: seq<string>, id: string): seq<string>
    requires forall x :: x in order ==> x in m
    decreases |order|
  {
    if order == [] then []
    else
      var k := |order| - 1;
      Children(m, order[..k], id) + if Parent(m, order[k]) == Some(id) then [order[k]] else []
  }

  /** The child a walk follows: the last one. */
  function Primary(m: Turns, order: seq<string>, id: string): Option<string>
    requires forall x :: x in order ==> x in m
  {
    var children := Children(m, order, id);
    if children == [] then None else Some(children[|children| - 1])
  }

  lemma {:induction false} ChildrenOf(m: Turns, order: seq<string>, id: string, x: string)
    requires forall y :: y in order ==> y in m
    ensures x in Children(m, order, id) <==> x in order && Parent(m, x) == Some(id)
    decreases |order|
  {
    if order != [] {
      var k := |order| - 1;
      ChildrenOf(m, order[..k], id, x);
      assert order == order[..k] + [order[k]];
    }
  }

  lemma {:induction false} RootsOf(m: Turns, order: seq<string>, x: string)
    requires forall y :: y in order ==> y in m
    ensures x in Roots(m, order) <==> x in order && Parent(m, x).None?
    decreases |order|
  {
    if order != [] {
      var k := |order| - 1;
      RootsOf(m, order[..k], x);
      assert order == order[..k] + [order[k]];
    }
  }

  lemma {:induction false} RootsDistinct(m: Turns, order: seq<string>)
    requires Distinct(order) && forall y :: y in order ==> y in m
    ensures Distinct(Roots(m, order))
    decreases |order|
  {
    if order != [] {
      var k := |order| - 1;
      RootsDistinct(m, order[..k]);
      RootsOf(m, order[..k], order[k]);
    }
  }

  // ----- Walks -----

  /** `order` lists the turns of `m`, each once, under its own id. */
  ghost predicate Listed(m: Turns, order: seq<string>) {
    && Distinct(order)
    && (forall id :: id in order <==> id in m)
    && (forall id :: id in m ==> m[id].turnId == id)
  }

  /** The whole path of primary children from `root`. It ends only where there is no further child
      (an empty id counts as none), never because of the visited guard. */
  ghost predicate IsWalk(m: Turns, order: seq<string>, root: string, w: seq<string>)
    requires Listed(m, order)
  {
    if root == "" then w == []
    else
      && w != [] && w[0] == root
      && (forall i :: 0 <= i < |w| ==> w[i] in m && w[i] != "")
      && (forall i :: 0 < i < |w| ==> Primary(m, order, w[i - 1]) == Some(w[i]))
      && (Primary(m, order, w[|w| - 1]).None? || Primary(m, order, w[|w| - 1]) == Some(""))
  }

  /** Each link of the list is a parent link. */
  ghost predicate Linked(m: Turns, w: seq<string>) {
    && (forall i :: 0 <= i < |w| ==> w[i] in m)
    && (forall i :: 0 < i < |w| ==> Parent(m, w[i]) == Some(w[i - 1]))
  }

  lemma PrimaryIsChild(m: Turns, order: seq<string>, id: string)
    requires Listed(m, order) && Primary(m, order, id).Some?
    ensures Primary(m, order, id).value in m && Parent(m, Primary(m, order, id).value) == Some(id)
  {
    ChildrenOf(m, order, id, Primary(m, order, id).value);
  }

  lemma WalkIsLinked(m: Turns, order: seq<string>, root: string, w: seq<string>)
    requires Listed(m, order) && IsWalk(m, order, root, w)
    ensures Linked(m, w)
  {
    forall i | 0 < i < |w| ensures Parent(m, w[i]) == Some(w[i - 1]) {
      assert Primary(m, order, w[i - 1]) == Some(w[i]);
      PrimaryIsChild(m, order, w[i - 1]);
    }
  }

  /** Two linked lists that start at roots and meet anywhere meet at the same place and started
      from the same root: whatever cycles and branches the links contain. */
  lemma {:induction false} RootedListsMeetInStep(m: Turns, a: seq<string>, b: seq<string>, i: nat, j: nat)
    requires Linked(m, a) && Linked(m, b) && i < |a| && j < |b| && a[i] == b[j]
    requires Parent(m, a[0]).None? && Parent(m, b[0]).None?
    ensures i == j && a[0] == b[0]
    decreases i
  {
    if i > 0 {
      assert Parent(m, a[i]) == Some(a[i - 1]);
    }
    if j > 0 {
      assert Parent(m, b[j]) == Some(b[j - 1]);
    }
    if i > 0 && j > 0 {
      RootedListsMeetInStep(m, a, b, i - 1, j - 1);
    }
  }

  // ----- All walks together -----

  ghost predicate AreWalks(m: Turns, order: seq<string>, roots: seq<string>, walks: seq<seq<string>>)
    requires Listed(m, order)
  {
    |walks| == |roots| && forall i :: 0 <= i < |roots| ==> IsWalk(m, order, roots[i], walks[i])
  }

  function Flat(walks: seq<seq<string>>): seq<string>
    decreases |walks|
  {
    if walks == [] then [] else Flat(walks[..|walks| - 1]) + walks[|walks| - 1]
  }

  lemma {:induction false} FlatHas(walks: seq<seq<string>>, x: string)
    ensures x in Flat(walks) <==> exists i :: 0 <= i < |walks| && x in walks[i]
    decreases |walks|
  {
    if walks != [] {
      var k := |walks| - 1;
      FlatHas(walks[..k], x);
      if x in Flat(walks[..k]) {
        var i :| 0 <= i < k && x in walks[..k][i];
        assert x in walks[i];
      }
      if i :| 0 <= i < |walks| && x in walks[i] {
        if i < k {
          assert x in walks[..k][i];
        }
      }
    }
  }

  /** `x` is `n` primary links away from a root. */
  predicate OnPath(m: Turns, order: seq<string>, x: string, n: nat)
    requires forall y :: y in order ==> y in m
    decreases n
  {
    && x in m && x != ""
    && if n == 0 then Parent(m, x).None?
       else Parent(m, x).Some? && Primary(m, order, Parent(m, x).value) == Some(x)
            && OnPath(m, order, Parent(m, x).value, n - 1)
  }

  ghost predicate Exported(m: Turns, order: seq<string>, x: string)
    requires forall y :: y in order ==> y in m
  {
    exists n :: OnPath(m, order, x, n)
  }

  lemma WalkLink(m: Turns, order: seq<string>, root: string, w: seq<string>, n: nat)
    requires Listed(m, order) && IsWalk(m, order, root, w) && n < |w|
    ensures w[n] in m && w[n] != "" && w[0] == root
    ensures 0 < n ==> Primary(m, order, w[n - 1]) == Some(w[n]) && Parent(m, w[n]) == Some(w[n - 1])
  {
    if 0 < n {
      assert Primary(m, order, w[n - 1]) == Some(w[n]);
      PrimaryIsChild(m, order, w[n - 1]);
    }
  }

  lemma {:induction false} WalkIsOnPath(m: Turns, order: seq<string>, root: string, w: seq<string>, n: nat)
    requires Listed(m, order) && IsWalk(m, order, root, w) && n < |w| && root in m && Parent(m, root).None?
    ensures OnPath(m, order, w[n], n)
    decreases n
  {
    hide IsWalk, Primary;
    WalkLink(m, order, root, w, n);
    if n > 0 {
      WalkIsOnPath(m, order, root, w, n - 1);
    }
  }

  lemma {:induction false} PathIsWalked(m: Turns, order: seq<string>, roots: seq<string>, walks: seq<seq<string>>, x: string, n: nat)
    returns (i: nat)
    requires Listed(m, order) && roots == Roots(m, order) && AreWalks(m, order, roots, walks) && OnPath(m, order, x, n)
    ensures i < |walks| && n < |walks[i]| && walks[i][n] == x
    decreases n
  {
    hide Primary, IsWalk;
    if n == 0 {
      RootsOf(m, order, x);
      i :| 0 <= i < |roots| && roots[i] == x;
      assert IsWalk(m, order, roots[i], walks[i]);
      WalkStarts(m, order, x, walks[i]);
    } else {
      i := PathIsWalked(m, order, roots, walks, Parent(m, x).value, n - 1);
      assert IsWalk(m, order, roots[i], walks[i]);
      WalkGoesOn(m, order, roots[i], walks[i], n, x);
    }
  }

  lemma WalkStarts(m: Turns, order: seq<string>, root: string, w: seq<string>)
    requires Listed(m, order) && IsWalk(m, order, root, w) && root != ""
    ensures w != [] && w[0] == root
  {}

  lemma WalkGoesOn(m: Turns, order: seq<string>, root: string, w: seq<string>, n: nat, x: string)
    requires Listed(m, order) && IsWalk(m, order, root, w) && 0 < n <= |w|
    requires x != "" && Primary(m, order, w[n - 1]) == Some(x)
    ensures n < |w| && w[n] == x
  {}

  /** The walked turns are exactly the exported ones, and none is walked twice. */
  lemma WalksCover(m: Turns, order: seq<string>, roots: seq<string>, walks: seq<seq<string>>)
    requires Listed(m, order) && roots == Roots(m, order) && AreWalks(m, order, roots, walks)
    ensures forall x :: x in Flat(walks) <==> Exported(m, order, x)
  {
    forall x ensures x in Flat(walks) <==> Exported(m, order, x) {
      FlatHas(walks, x);
      if x in Flat(walks) {
        var i :| 0 <= i < |walks| && x in walks[i];
        assert IsWalk(m, order, roots[i], walks[i]);
        var n :| 0 <= n < |walks[i]| && walks[i][n] == x;
        RootsOf(m, order, roots[i]);
        WalkIsOnPath(m, order, roots[i], walks[i], n);
      }
      if Exported(m, order, x) {
        var n: nat :| OnPath(m, order, x, n);
        var i := PathIsWalked(m, order, roots, walks, x, n);
        assert x in walks[i];
      }
    }
  }

  /** No turn is walked twice: neither within one walk nor by two. */
  lemma {:induction false} WalksDistinct(m: Turns, order: seq<string>, roots: seq<string>, walks: seq<seq<string>>)
    requires Listed(m, order) && AreWalks(m, order, roots, walks)
    requires Distinct(roots) && forall r :: r in roots ==> r in m && Parent(m, r).None?
    ensures Distinct(Flat(walks))
    decreases |walks|
  {
    if walks != [] {
      var k := |walks| - 1;
      WalksDistinct(m, order, roots[..k], walks[..k]);
      var last, before := walks[k], Flat(walks[..k]);
      assert IsWalk(m, order, roots[k], last);
      WalkIsLinked(m, order, roots[k], last);
      forall i, j | 0 <= i < j < |last| ensures last[i] != last[j] {
        if last[i] == last[j] {
          RootedListsMeetInStep(m, last, last, i, j);
        }
      }
      forall i, j | 0 <= i < |before| && 0 <= j < |last| ensures before[i] != last[j] {
        if before[i] == last[j] {
          FlatHas(walks[..k], last[j]);
          assert last[j] in before;
          var h :| 0 <= h < k && last[j] in walks[..k][h];
          var w := walks[h];
          var g :| 0 <= g < |w| && w[g] == last[j];
          assert IsWalk(m, order, roots[h], w);
          WalkIsLinked(m, order, roots[h], w);
          RootedListsMeetInStep(m, w, last, g, j);
        }
      }
    }
  }

  // ----- The history: entries sorted by timestamp -----

  function ChangeOf(m: Turns, id: string): Change
    requires id in m
  {
    var r := m[id];
    Change(r.turnId, r.sessionId, r.timestamp, r.model, r.intent, r.toolName, Parent(m, id))
  }

  function Entries(m: Turns, ids: seq<string>): (r: seq<Change>)
    requires forall id :: id in ids ==> id in m
    ensures |r| == |ids|
  {
    seq(|ids|, i requires 0 <= i < |ids| => ChangeOf(m, ids[i]))
  }

  function Ids(h: seq<Change>): (r: seq<string>)
    ensures |r| == |h|
  {
    seq(|h|, i requires 0 <= i < |h| => h[i].turnId)
  }

  /** The library's stable sort, as the list it returns. */
  function SortByTime(h: seq<Change>): (r: seq<Change>)
    decreases |h|
  {
    if h == [] then [] else Insert(SortByTime(h[..|h| - 1]), h[|h| - 1])
  }

  function Insert(h: seq<Change>, c: Change): (r: seq<Change>)
    decreases |h|
  {
    if h == [] || h[|h| - 1].timestamp <= c.timestamp then h + [c]
    else Insert(h[..|h| - 1], c) + [h[|h| - 1]]
  }

  ghost predicate InOrder(h: seq<Change>) {
    forall i, j :: 0 <= i < j < |h| ==> h[i].timestamp <= h[j].timestamp
  }

  lemma {:induction false} InsertAdds(h: seq<Change>, c: Change)
    ensures multiset(Insert(h, c)) == multiset(h) + multiset{c}
    decreases |h|
  {
    if h != [] && h[|h| - 1].timestamp > c.timestamp {
      InsertAdds(h[..|h| - 1], c);
      assert h == h[..|h| - 1] + [h[|h| - 1]];
    }
  }

  ghost predicate NoLater(h: seq<Change>, t: int) {
    forall i :: 0 <= i < |h| ==> h[i].timestamp <= t
  }

  lemma {:induction false} InsertNoLater(h: seq<Change>, c: Change, t: int)
    requires NoLater(h, t) && c.timestamp <= t
    ensures NoLater(Insert(h, c), t)
    decreases |h|
  {
    if h != [] && h[|h| - 1].timestamp > c.timestamp {
      InsertNoLater(h[..|h| - 1], c, t);
    }
  }

  lemma {:induction false} InsertKeepsOrder(h: seq<Change>, c: Change)
    requires InOrder(h)
    ensures InOrder(Insert(h, c))
    decreases |h|
  {
    if h != [] && h[|h| - 1].timestamp > c.timestamp {
      var k := |h| - 1;
      InsertKeepsOrder(h[..k], c);
      InsertNoLater(h[..k], c, h[k].timestamp);
    }
  }

  lemma {:induction false} SortSorts(h: seq<Change>)
    ensures InOrder(SortByTime(h)) && multiset(SortByTime(h)) == multiset(h)
    decreases |h|
  {
    if h != [] {
      SortSorts(h[..|h| - 1]);
      InsertKeepsOrder(SortByTime(h[..|h| - 1]), h[|h| - 1]);
      InsertAdds(SortByTime(h[..|h| - 1]), h[|h| - 1]);
      assert h == h[..|h| - 1] + [h[|h| - 1]];
    }
  }

  function At(h: seq<Change>, t: int): seq<Change>
    decreases |h|
  {
    if h == [] then [] else At(h[..|h| - 1], t) + if h[|h| - 1].timestamp == t then [h[|h| - 1]] else []
  }

  lemma {:induction false} InsertIsStable(h: seq<Change>, c: Change, t: int)
    requires InOrder(h)
    ensures At(Insert(h, c), t) == At(h + [c], t)
    decreases |h|
  {
    assert (h + [c])[..|h|] == h;
    if h != [] && h[|h| - 1].timestamp > c.timestamp {
      var k := |h| - 1;
      InsertIsStable(h[..k], c, t);
      assert (h[..k] + [c])[..k] == h[..k];
    }
  }

  /** Entries with equal timestamps keep the order in which they were walked. */
  lemma {:induction false} SortIsStable(h: seq<Change>, t: int)
    ensures At(SortByTime(h), t) == At(h, t)
    decreases |h|
  {
    if h != [] {
      var k := |h| - 1;
      SortIsStable(h[..k], t);
      SortSorts(h[..k]);
      InsertIsStable(SortByTime(h[..k]), h[k], t);
      assert (SortByTime(h[..k]) + [h[k]])[..|SortByTime(h[..k])|] == SortByTime(h[..k]);
    }
  }

  /** What an export of the turns `m` holds: sorted, without repetition, exactly the turns on
      primary paths, each with its own data. */
  ghost predicate IsHistory(m: Turns, order: seq<string>, h: seq<Change>)
    requires forall y :: y in order ==> y in m
  {
    && InOrder(h)
    && (forall i, j :: 0 <= i < j < |h| ==> h[i].turnId != h[j].turnId)
    && (forall i :: 0 <= i < |h| ==> h[i].turnId in m && h[i] == ChangeOf(m, h[i].turnId))
    && (forall x :: x in Ids(h) <==> Exported(m, order, x))
  }

  lemma {:induction false} NoRepeats<T>(xs: seq<T>)
    requires forall i, j :: 0 <= i < j < |xs| ==> xs[i] != xs[j]
    ensures forall x :: multiset(xs)[x] <= 1
    decreases |xs|
  {
    if xs != [] {
      var k := |xs| - 1;
      NoRepeats(xs[..k]);
      assert xs == xs[..k] + [xs[k]];
      assert xs[k] !in xs[..k];
    }
  }

  lemma NoRepeatsBack<T>(xs: seq<T>, i: nat, j: nat)
    requires i < j < |xs| && multiset(xs)[xs[i]] <= 1
    ensures xs[i] != xs[j]
  {
    assert xs == xs[..j] + xs[j..];
    assert xs[i] in xs[..j];
    assert xs[j] in xs[j..];
  }

  /** The sorted entries of all walks are the history, for any links, cyclic or branching. */
  lemma WalksMakeHistory(m: Turns, order: seq<string>, walks: seq<seq<string>>)
    requires Listed(m, order) && AreWalks(m, order, Roots(m, order), walks)
    ensures forall id :: id in Flat(walks) ==> id in m
    ensures IsHistory(m, order, SortByTime(Entries(m, Flat(walks))))
  {
    hide IsWalk, Primary, Roots, OnPath, Parent;
    var roots, ids := Roots(m, order), Flat(walks);
    RootsDistinct(m, order);
    forall r | r in roots ensures r in m && Parent(m, r).None? {
      RootsOf(m, order, r);
    }
    WalksDistinct(m, order, roots, walks);
    WalksCover(m, order, roots, walks);
    forall id | id in ids ensures id in m {
      assert Exported(m, order, id);
      ExportedIsTurn(m, order, id);
    }
    SortedEntries(m, ids);
  }

  lemma ExportedIsTurn(m: Turns, order: seq<string>, id: string)
    requires (forall y :: y in order ==> y in m) && Exported(m, order, id)
    ensures id in m
  {}

  lemma SortedEntries(m: Turns, ids: seq<string>)
    requires Distinct(ids) && (forall id :: id in ids ==> id in m) && forall id :: id in m ==> m[id].turnId == id
    ensures var h := SortByTime(Entries(m, ids));
            && InOrder(h)
            && (forall i, j :: 0 <= i < j < |h| ==> h[i].turnId != h[j].turnId)
            && (forall i :: 0 <= i < |h| ==> h[i].turnId in m && h[i] == ChangeOf(m, h[i].turnId))
            && (forall x :: x in Ids(h) <==> x in ids)
  {
    hide SortByTime, InOrder;
    var es := Entries(m, ids);
    var h := SortByTime(es);
    SortSorts(es);
    SameMembers(es, h);
    NoRepeats(es);
    forall i | 0 <= i < |h| ensures h[i].turnId in m && h[i] == ChangeOf(m, h[i].turnId) && h[i].turnId in ids {
      assert h[i] in es;
    }
    forall i, j | 0 <= i < j < |h| ensures h[i].turnId != h[j].turnId {
      NoRepeatsBack(h, i, j);
    }
    forall x ensures x in Ids(h) <==> x in ids {
      if x in ids {
        var k :| 0 <= k < |ids| && ids[k] == x;
        assert es[k] in h;
        var i :| 0 <= i < |h| && h[i] == es[k];
        assert Ids(h)[i] == x;
      }
    }
  }

  lemma SameMembers<T>(a: seq<T>, b: seq<T>)
    requires multiset(a) == multiset(b)
    ensures forall x :: x in a <==> x in b
  {
    forall x ensures x in a <==> x in b {
      assert x in a <==> x in multiset(a);
      assert x in b <==> x in multiset(b);
    }
  }

  // ----- What the export promises -----

  /** Every non-null `supersedes` in the export points at another entry of the export. */
  lemma SupersedesPointsInside(m: Turns, order: seq<string>, h: seq<Change>, i: nat) returns (j: nat)
    requires Listed(m, order) && IsHistory(m, order, h) && i < |h| && h[i].supersedes.Some?
    ensures j < |h| && j != i && h[j].turnId == h[i].supersedes.value
  {
    var x := h[i].turnId;
    assert Ids(h)[i] == x;
    assert Exported(m, order, x);
    var n: nat :| OnPath(m, order, x, n);
    var y := Parent(m, x).value;
    assert OnPath(m, order, y, n - 1);
    assert Exported(m, order, y);
    assert y in Ids(h);
    j :| 0 <= j < |h| && Ids(h)[j] == y;
    if i == j {
      OnPathOnce(m, order, x, n);
    }
  }

  /** A turn on a path from a root does not supersede itself. */
  lemma {:induction false} OnPathOnce(m: Turns, order: seq<string>, x: string, n: nat)
    requires (forall y :: y in order ==> y in m) && OnPath(m, order, x, n) && Parent(m, x) == Some(x)
    ensures false
    decreases n
  {
    if n > 0 {
      OnPathOnce(m, order, x, n - 1);
    }
  }

  /** `x` is `n` links away from a turn that supersedes nothing here. */
  predicate RootedAt(m: Turns, x: string, n: nat)
    decreases n
  {
    x in m && if n == 0 then Parent(m, x).None? else Parent(m, x).Some? && RootedAt(m, Parent(m, x).value, n - 1)
  }

  ghost predicate Rooted(m: Turns, x: string) {
    exists n :: RootedAt(m, x, n)
  }

  ghost predicate Unbranched(m: Turns) {
    forall x, y :: x in m && y in m && Parent(m, x).Some? && Parent(m, x) == Parent(m, y) ==> x == y
  }

  lemma {:induction false} RootedUnbranchedIsOnPath(m: Turns, order: seq<string>, x: string, n: nat)
    requires Listed(m, order) && Unbranched(m) && "" !in m && RootedAt(m, x, n)
    ensures OnPath(m, order, x, n)
    decreases n
  {
    if n > 0 {
      var y := Parent(m, x).value;
      RootedUnbranchedIsOnPath(m, order, y, n - 1);
      ChildrenOf(m, order, y, x);
      PrimaryIsChild(m, order, y);
    }
  }

  lemma {:induction false} OnPathIsRooted(m: Turns, order: seq<string>, x: string, n: nat)
    requires Listed(m, order) && OnPath(m, order, x, n)
    ensures RootedAt(m, x, n)
    decreases n
  {
    if n > 0 {
      OnPathIsRooted(m, order, Parent(m, x).value, n - 1);
    }
  }

  /** The export holds every turn that touches the artifact exactly when no turn is superseded twice,
      every turn leads back to one that supersedes nothing, and no turn id is empty. */
  lemma CompleteIff(m: Turns, order: seq<string>)
    requires Listed(m, order)
    ensures (forall x :: x in m ==> Exported(m, order, x))
            <==> Unbranched(m) && (forall x :: x in m ==> Rooted(m, x)) && "" !in m
  {
    if forall x :: x in m ==> Exported(m, order, x) {
      forall x | x in m ensures Rooted(m, x) && x != "" {
        assert Exported(m, order, x);
        var n: nat :| OnPath(m, order, x, n);
        OnPathIsRooted(m, order, x, n);
      }
      forall x, y | x in m && y in m && Parent(m, x).Some? && Parent(m, x) == Parent(m, y) ensures x == y {
        assert Exported(m, order, x) && Exported(m, order, y);
        var n: nat :| OnPath(m, order, x, n);
        var k: nat :| OnPath(m, order, y, k);
      }
    }
    if Unbranched(m) && (forall x :: x in m ==> Rooted(m, x)) && "" !in m {
      forall x | x in m ensures Exported(m, order, x) {
        assert Rooted(m, x);
        var n: nat :| RootedAt(m, x, n);
        RootedUnbranchedIsOnPath(m, order, x, n);
      }
    }
  }

  /** Each superseding turn has a strictly later timestamp than the turn it supersedes. */
  ghost predicate LaterLinks(m: Turns) {
    forall x :: x in m && Parent(m, x).Some? ==> m[Parent(m, x).value].timestamp < m[x].timestamp
  }

  lemma {:induction false} LaterLinksRoot(m: Turns, x: string)
    requires LaterLinks(m) && x in m
    ensures Rooted(m, x)
    decreases |Earlier(m, x)|
  {
    if Parent(m, x).None? {
      assert RootedAt(m, x, 0);
    } else {
      var y := Parent(m, x).value;
      assert Earlier(m, y) < Earlier(m, x) by {
        assert y in Earlier(m, x) && y !in Earlier(m, y);
      }
      SmallerSet(Earlier(m, y), Earlier(m, x));
      LaterLinksRoot(m, y);
      var n: nat :| RootedAt(m, y, n);
      assert RootedAt(m, x, n + 1);
    }
  }

  function Earlier(m: Turns, x: string): set<string>
    requires x in m
  {
    set y | y in m && m[y].timestamp < m[x].timestamp
  }

  lemma SmallerSet<T>(a: set<T>, b: set<T>)
    requires a < b
    ensures |a| < |b|
  {
    var rest := b - a;
    assert b == a + rest && |b| == |a| + |rest|;
    assert rest != {};
  }

  /** With strictly later links, a superseded turn comes before its successor, the history opens
      with a turn that supersedes nothing, and without branches it holds every turn. */
  lemma LaterLinksHistory(m: Turns, order: seq<string>, h: seq<Change>)
    requires Listed(m, order) && IsHistory(m, order, h) && LaterLinks(m)
    ensures forall i, j :: 0 <= i < |h| && 0 <= j < |h| && h[i].supersedes == Some(h[j].turnId) ==> j < i
    ensures h != [] ==> h[0].supersedes.None?
    ensures Unbranched(m) && "" !in m ==> (forall x :: x in m <==> x in Ids(h))
  {
    forall i, j | 0 <= i < |h| && 0 <= j < |h| && h[i].supersedes == Some(h[j].turnId) ensures j < i {
      assert h[i] == ChangeOf(m, h[i].turnId) && h[j] == ChangeOf(m, h[j].turnId);
      assert m[h[j].turnId].timestamp < m[h[i].turnId].timestamp;
    }
    if h != [] && h[0].supersedes.Some? {
      var j := SupersedesPointsInside(m, order, h, 0);
    }
    if Unbranched(m) && "" !in m {
      forall x | x in m ensures Rooted(m, x) {
        LaterLinksRoot(m, x);
      }
      CompleteIff(m, order);
      forall x ensures x in m <==> x in Ids(h) {
        if Exported(m, order, x) {
          ExportedIsTurn(m, order, x);
        }
      }
    }
  }

  // ----- Which of several successors is exported -----

  /** Nobody later in the order supersedes the turn that `order[a]` supersedes. */
  ghost predicate LatestSuccessor(m: Turns, order: seq<string>, a: nat)
    requires a < |order| && forall id :: id in order ==> id in m
  {
    forall b :: a < b < |order| ==> !(m[order[b]].supersedes.Some? && m[order[b]].supersedes == m[order[a]].supersedes)
  }

  lemma {:induction false} PrimaryIsLast(m: Turns, order: seq<string>, id: string, a: nat)
    requires Distinct(order) && (forall x :: x in order ==> x in m) && a < |order| && Parent(m, order[a]) == Some(id)
    ensures Primary(m, order, id) == Some(order[a])
            <==> forall b :: a < b < |order| ==> Parent(m, order[b]) != Some(id)
    decreases |order|
  {
    hide Parent;
    var k := |order| - 1;
    var before := order[..k];
    ChildrenOf(m, before, id, order[k]);
    if a < k {
      PrimaryIsLast(m, before, id, a);
      ChildrenOf(m, before, id, order[a]);
      assert Parent(m, order[k]) != Some(id) ==> Children(m, order, id) == Children(m, before, id);
      assert forall b :: a < b < k ==> before[b] == order[b];
    }
  }

  /** The law of the walk, in terms of the turns alone: every step goes to the turn seen last among those
      that supersede the one before. */
  lemma {:induction false} WalkTakesLast(m: Turns, order: seq<string>, root: string, w: seq<string>, i: nat, a: nat, b: nat)
    requires Listed(m, order) && IsWalk(m, order, root, w) && 0 < i < |w|
    requires a < |order| && order[a] == w[i]
    requires b < |order| && m[order[b]].supersedes == Some(w[i - 1])
    ensures b <= a
  {
    WalkLink(m, order, root, w, i);
    WalkLink(m, order, root, w, i - 1);
    PrimaryIsLast(m, order, w[i - 1], a);
  }

  /** Of the turns that supersede an exported turn exactly the one seen last is exported. */
  lemma {:induction false} LastSuccessorExported(m: Turns, order: seq<string>, h: seq<Change>, a: nat, j: nat)
    requires Listed(m, order) && IsHistory(m, order, h) && j < |h| && a < |order| && order[a] != ""
    requires m[order[a]].supersedes == Some(h[j].turnId)
    ensures order[a] in Ids(h) <==> LatestSuccessor(m, order, a)
  {
    var x, y := order[a], h[j].turnId;
    assert Ids(h)[j] == y;
    assert Exported(m, order, y);
    var n: nat :| OnPath(m, order, y, n);
    assert Parent(m, x) == Some(y);
    assert forall b :: a < b < |order| ==> (Parent(m, order[b]) == Some(y) <==> m[order[b]].supersedes == Some(y));
    PrimaryIsLast(m, order, y, a);
    hide Primary;
    if LatestSuccessor(m, order, a) {
      assert OnPath(m, order, x, n + 1);
    }
    if Exported(m, order, x) {
      var k: nat :| OnPath(m, order, x, k);
    }
  }

  // ----- Where an entry comes from -----

  /** The turn's last row; turns are ordered by their first one. */
  ghost predicate LastRowAt(rows: seq<Row>, id: string, k: nat) {
    k < |rows| && rows[k].turnId == id && forall j :: k < j < |rows| ==> rows[j].turnId != id
  }

  ghost predicate FirstRowAt(rows: seq<Row>, id: string, k: nat) {
    k < |rows| && rows[k].turnId == id && forall j :: 0 <= j < k ==> rows[j].turnId != id
  }

  lemma {:induction false} LastRowIs(rows: seq<Row>, id: string)
    ensures id in LastRow(rows) <==> exists k :: 0 <= k < |rows| && rows[k].turnId == id
    ensures id in LastRow(rows) ==> exists k: nat :: LastRowAt(rows, id, k) && LastRow(rows)[id] == rows[k]
    decreases |rows|
  {
    if rows != [] {
      var n := |rows| - 1;
      LastRowIs(rows[..n], id);
      if rows[n].turnId == id {
        assert LastRowAt(rows, id, n);
      } else if id in LastRow(rows) {
        var k: nat :| LastRowAt(rows[..n], id, k) && LastRow(rows[..n])[id] == rows[..n][k];
        assert LastRowAt(rows, id, k) && LastRow(rows)[id] == rows[k];
      }
    }
  }

  /** One turn stands before another in the order exactly when it is seen first. */
  lemma {:induction false} OrderIsFirstSeen(rows: seq<Row>, i: nat, j: nat, a: nat, b: nat)
    requires i < |FirstSeen(rows)| && j < |FirstSeen(rows)|
    requires FirstRowAt(rows, FirstSeen(rows)[i], a) && FirstRowAt(rows, FirstSeen(rows)[j], b)
    ensures i < j <==> a < b
    decreases |rows|
  {
    var n := |rows| - 1;
    var before := FirstSeen(rows[..n]);
    OrderListsTurns(rows);
    OrderListsTurns(rows[..n]);
    FirstSeenHas(rows[..n], FirstSeen(rows)[i]);
    FirstSeenHas(rows[..n], FirstSeen(rows)[j]);
    if i < |before| && j < |before| {
      assert a < n && b < n;
      OrderIsFirstSeen(rows[..n], i, j, a, b);
    }
  }

  lemma {:induction false} FirstSeenHas(rows: seq<Row>, id: string)
    ensures id in FirstSeen(rows) <==> exists k :: 0 <= k < |rows| && rows[k].turnId == id
    decreases |rows|
  {
    if rows != [] {
      var n := |rows| - 1;
      FirstSeenHas(rows[..n], id);
      if exists k :: 0 <= k < |rows| && rows[k].turnId == id {
        var k :| 0 <= k < |rows| && rows[k].turnId == id;
        assert k < n ==> rows[..n][k].turnId == id;
      }
      if id in FirstSeen(rows[..n]) {
        var k :| 0 <= k < n && rows[..n][k].turnId == id;
        assert rows[k].turnId == id;
      }
    }
  }

  /** Every entry of the history carries the data of its turn's last row, field by field, and its link only
      if the turn it supersedes has a row too. */
  lemma {:induction false} EntryIsLastRow(rows: seq<Row>, h: seq<Change>, i: nat) returns (k: nat)
    requires Listed(LastRow(rows), FirstSeen(rows)) && IsHistory(LastRow(rows), FirstSeen(rows), h) && i < |h|
    ensures LastRowAt(rows, h[i].turnId, k)
    ensures h[i].sessionId == rows[k].sessionId && h[i].timestamp == rows[k].timestamp && h[i].model == rows[k].model
    ensures h[i].intent == rows[k].intent && h[i].toolName == rows[k].toolName
    ensures forall p :: h[i].supersedes == Some(p)
              <==> rows[k].supersedes == Some(p) && exists j :: 0 <= j < |rows| && rows[j].turnId == p
  {
    var m, id := LastRow(rows), h[i].turnId;
    assert h[i] == ChangeOf(m, id);
    LastRowIs(rows, id);
    k :| LastRowAt(rows, id, k) && m[id] == rows[k];
    forall p ensures p in m <==> exists j :: 0 <= j < |rows| && rows[j].turnId == p {
      LastRowIs(rows, p);
    }
  }

  // ----- Which entry comes first -----

  /** `x` stands somewhere before `y`. */
  ghost predicate Before<T>(xs: seq<T>, x: T, y: T) {
    exists i, j :: 0 <= i < j < |xs| && xs[i] == x && xs[j] == y
  }

  lemma BeforeSnoc<T>(xs: seq<T>, last: T, x: T, y: T)
    ensures Before(xs + [last], x, y) <==> Before(xs, x, y) || (last == y && x in xs)
  {
    var all := xs + [last];
    if Before(all, x, y) {
      var i, j :| 0 <= i < j < |all| && all[i] == x && all[j] == y;
      assert j < |xs| ==> xs[i] == x && xs[j] == y;
    }
    if Before(xs, x, y) {
      var i, j :| 0 <= i < j < |xs| && xs[i] == x && xs[j] == y;
      assert all[i] == x && all[j] == y;
    }
    if last == y && x in xs {
      var i :| 0 <= i < |xs| && xs[i] == x;
      assert all[i] == x && all[|xs|] == y;
    }
  }

  /** Entries of one timestamp stand among themselves as they stand in the whole list. */
  lemma {:induction false} BeforeAt(h: seq<Change>, t: int, x: Change, y: Change)
    requires x.timestamp == t && y.timestamp == t
    ensures x in At(h, t) <==> x in h
    ensures Before(At(h, t), x, y) <==> Before(h, x, y)
    decreases |h|
  {
    if h != [] {
      var k := |h| - 1;
      BeforeAt(h[..k], t, x, y);
      assert h == h[..k] + [h[k]];
      hide Before;
      BeforeSnoc(h[..k], h[k], x, y);
      BeforeSnoc(At(h[..k], t), h[k], x, y);
      assert At(h[..k], t) + [] == At(h[..k], t);
    } else {
      assert h == At(h, t);
    }
  }

  /** Neighbours in a walk keep their order in the list of all walks. */
  lemma {:induction false} BeforeInFlat(walks: seq<seq<string>>, v: nat, n: nat)
    requires v < |walks| && 0 < n < |walks[v]|
    ensures Before(Flat(walks), walks[v][n - 1], walks[v][n])
    decreases |walks|
  {
    var k := |walks| - 1;
    var before, last := Flat(walks[..k]), walks[k];
    var all := before + last;
    if v < k {
      BeforeInFlat(walks[..k], v, n);
      var i, j :| 0 <= i < j < |before| && before[i] == walks[v][n - 1] && before[j] == walks[v][n];
      assert all[i] == walks[v][n - 1] && all[j] == walks[v][n];
    } else {
      assert all[|before| + n - 1] == last[n - 1] && all[|before| + n] == last[n];
    }
  }

  /** A superseded turn is walked before its successor. */
  lemma WalkedBefore(m: Turns, order: seq<string>, walks: seq<seq<string>>, child: string)
    requires Listed(m, order) && AreWalks(m, order, Roots(m, order), walks)
    requires child in Flat(walks) && child in m && Parent(m, child).Some?
    ensures Before(Flat(walks), Parent(m, child).value, child)
  {
    hide IsWalk, Primary, Parent, Flat;
    var roots := Roots(m, order);
    FlatHas(walks, child);
    var v :| 0 <= v < |walks| && child in walks[v];
    var n :| 0 <= n < |walks[v]| && walks[v][n] == child;
    assert IsWalk(m, order, roots[v], walks[v]);
    RootsOf(m, order, roots[v]);
    WalkLink(m, order, roots[v], walks[v], n);
    BeforeInFlat(walks, v, n);
  }

  lemma BeforeInEntries(m: Turns, ids: seq<string>, x: string, y: string)
    requires (forall id :: id in ids ==> id in m) && Before(ids, x, y)
    ensures Before(Entries(m, ids), ChangeOf(m, x), ChangeOf(m, y))
  {
    var i, j :| 0 <= i < j < |ids| && ids[i] == x && ids[j] == y;
    var es := Entries(m, ids);
    assert es[i] == ChangeOf(m, x) && es[j] == ChangeOf(m, y);
  }

  /** The exact condition, whatever the timestamps: a superseded turn precedes its successor in the
      export if and only if it is not the later of the two. Ties are settled by the stable sort. */
  lemma SupersededFirstIff(m: Turns, order: seq<string>, walks: seq<seq<string>>, i: nat, j: nat)
    requires Listed(m, order) && AreWalks(m, order, Roots(m, order), walks)
    requires forall id :: id in Flat(walks) ==> id in m
    requires var h := SortByTime(Entries(m, Flat(walks)));
             i < |h| && j < |h| && h[i].supersedes == Some(h[j].turnId)
    ensures var h := SortByTime(Entries(m, Flat(walks)));
            j < i <==> h[j].timestamp <= h[i].timestamp
  {
    hide SortByTime, Flat, IsWalk, Roots, OnPath, At;
    var ids := Flat(walks);
    var es := Entries(m, ids);
    var h := SortByTime(es);
    WalksMakeHistory(m, order, walks);
    assert h[i] == ChangeOf(m, h[i].turnId) && h[j] == ChangeOf(m, h[j].turnId);
    if h[j].timestamp == h[i].timestamp {
      var t := h[i].timestamp;
      SortSorts(es);
      SameMembers(es, h);
      assert h[i] in es;
      WalkedBefore(m, order, walks, h[i].turnId);
      BeforeInEntries(m, ids, h[j].turnId, h[i].turnId);
      BeforeAt(es, t, h[j], h[i]);
      SortIsStable(es, t);
      BeforeAt(h, t, h[j], h[i]);
      var a, b :| 0 <= a < b < |h| && h[a] == h[j] && h[b] == h[i];
      assert a == j && b == i;
    }
  }

  /** If no turn is earlier than the turn it supersedes, the export is in the order of the links and
      opens with a turn that supersedes nothing. */
  lemma NeverEarlierHistory(m: Turns, order: seq<string>, walks: seq<seq<string>>)
    requires Listed(m, order) && AreWalks(m, order, Roots(m, order), walks)
    requires forall id :: id in Flat(walks) ==> id in m
    requires forall x :: x in m && Parent(m, x).Some? ==> m[Parent(m, x).value].timestamp <= m[x].timestamp
    ensures var h := SortByTime(Entries(m, Flat(walks)));
            && (forall i, j :: 0 <= i < |h| && 0 <= j < |h| && h[i].supersedes == Some(h[j].turnId) ==> j < i)
            && (h != [] ==> h[0].supersedes.None?)
  {
    hide SortByTime, Flat, IsWalk, Roots;
    var h := SortByTime(Entries(m, Flat(walks)));
    WalksMakeHistory(m, order, walks);
    forall i, j | 0 <= i < |h| && 0 <= j < |h| && h[i].supersedes == Some(h[j].turnId) ensures j < i {
      assert h[i] == ChangeOf(m, h[i].turnId) && h[j] == ChangeOf(m, h[j].turnId);
      SupersededFirstIff(m, order, walks, i, j);
    }
    if h != [] && h[0].supersedes.Some? {
      var j := SupersedesPointsInside(m, order, h, 0);
    }
  }

  // ----- The handler -----

  /** Child lists as the loop leaves them: an entry only for turns that have children. */
  ghost predicate IsChildMap(m: Turns, order: seq<string>, childMap: map<string, seq<string>>)
    requires forall x :: x in order ==> x in m
  {
    forall id :: if id in childMap then childMap[id] != [] && childMap[id] == Children(m, order, id)
                 else Children(m, order, id) == []
  }

  function WithChild(childMap: map<string, seq<string>>, parent: Option<string>, turnId: string): map<string, seq<string>> {
    if parent.None? then childMap
    else childMap[parent.value := (if parent.value in childMap then childMap[parent.value] else []) + [turnId]]
  }

  lemma ChildMapStep(m: Turns, before: seq<string>, turnId: string, childMap: map<string, seq<string>>)
    requires turnId in m && forall x :: x in before ==> x in m
    requires IsChildMap(m, before, childMap)
    ensures forall x :: x in before + [turnId] ==> x in m
    ensures IsChildMap(m, before + [turnId], WithChild(childMap, Parent(m, turnId), turnId))
    ensures Roots(m, before + [turnId]) == Roots(m, before) + if Parent(m, turnId).None? then [turnId] else []
  {
    hide Parent;
    var order := before + [turnId];
    assert order[..|order| - 1] == before;
    var next := WithChild(childMap, Parent(m, turnId), turnId);
    forall id ensures if id in next then next[id] != [] && next[id] == Children(m, order, id)
                      else Children(m, order, id) == []
    {
      assert Children(m, order, id) == Children(m, before, id) + if Parent(m, turnId) == Some(id) then [turnId] else [];
    }
  }

  method IndexLinks(m: Turns, order: seq<string>) returns (roots: seq<string>, childMap: map<string, seq<string>>)
    requires Listed(m, order)
    ensures roots == Roots(m, order) && IsChildMap(m, order, childMap)
  {
    hide Roots, Children, Distinct, IsChildMap;
    roots, childMap := [], map[];
    NoLinks(m);
    for i := 0 to |order|
      invariant roots == Roots(m, order[..i]) && IsChildMap(m, order[..i], childMap)
    {
      assert order[..i + 1] == order[..i] + [order[i]];
      var turnId := order[i];
      ChildMapStep(m, order[..i], turnId, childMap);
      var supersedes := m[turnId].supersedes;
      if supersedes.Some? && supersedes.value in m {
        var parent := supersedes.value;
        childMap := childMap[parent := (if parent in childMap then childMap[parent] else []) + [turnId]];
      }
      if supersedes.None? || supersedes.value !in m {
        roots := roots + [turnId];
      }
    }
    assert order[..|order|] == order;
  }

  lemma NoLinks(m: Turns)
    ensures Roots(m, []) == [] && IsChildMap(m, [], map[])
  {}

  /** The loop over one root, with its visited set. */
  method WalkFrom(m: Turns, order: seq<string>, childMap: map<string, seq<string>>, rootId: string)
    returns (walk: seq<string>)
    requires Listed(m, order) && IsChildMap(m, order, childMap)
    requires rootId in m && Parent(m, rootId).None?
    ensures IsWalk(m, order, rootId, walk)
  {
    hide Children, Parent;
    walk := [];
    var visited: set<string> := {};
    var currentId := Some(rootId);
    while currentId.Some? && currentId.value != "" && currentId.value in m && currentId.value !in visited
      invariant visited <= m.Keys && forall x :: x in visited <==> x in walk
      invariant currentId.Some? ==> currentId.value in m
      invariant walk == [] ==> currentId == Some(rootId)
      invariant walk != [] ==> walk[0] == rootId && Primary(m, order, walk[|walk| - 1]) == currentId
      invariant forall i :: 0 <= i < |walk| ==> walk[i] in m && walk[i] != ""
      invariant forall i :: 0 < i < |walk| ==> Primary(m, order, walk[i - 1]) == Some(walk[i])
      decreases m.Keys - visited
    {
      visited := visited + {currentId.value};
      walk := walk + [currentId.value];
      var last := currentId.value;
      currentId := if last in childMap then Some(childMap[last][|childMap[last]| - 1]) else None;
      assert currentId == Primary(m, order, last);
      if currentId.Some? {
        PrimaryIsChild(m, order, last);
      }
    }
    if currentId.Some? && currentId.value != "" {
      GuardNeverFires(m, order, rootId, walk, currentId.value);
    }
  }

  /** Following primary children from a root never comes back to a turn already walked. */
  lemma GuardNeverFires(m: Turns, order: seq<string>, rootId: string, walk: seq<string>, next: string)
    requires Listed(m, order) && rootId in m && Parent(m, rootId).None?
    requires walk != [] && walk[0] == rootId && (forall i :: 0 <= i < |walk| ==> walk[i] in m)
    requires forall i :: 0 < i < |walk| ==> Primary(m, order, walk[i - 1]) == Some(walk[i])
    requires Primary(m, order, walk[|walk| - 1]) == Some(next)
    ensures next !in walk
  {
    PrimaryIsChild(m, order, walk[|walk| - 1]);
    var longer := walk + [next];
    forall i | 0 < i < |longer| ensures Parent(m, longer[i]) == Some(longer[i - 1]) {
      assert Primary(m, order, longer[i - 1]) == Some(longer[i]);
      PrimaryIsChild(m, order, longer[i - 1]);
    }
    if next in walk {
      var j :| 0 <= j < |walk| && walk[j] == next;
      RootedListsMeetInStep(m, longer, longer, j, |walk|);
    }
  }

  /** `rows` is what the query returns; an absent field of the request reads as empty. The summary text
      names `chainLength` and `sessionCount`. */
  method HandleChangeTraceability(projectId: string, artifactPath: string, keyProject: Option<string>, rows: seq<Row>)
    returns (status: int, result: Export)
    ensures status == if projectId == "" || artifactPath == "" then 400
                      else if keyProject.Some? && keyProject.value != "" && keyProject.value != projectId then 403
                      else 200
    ensures status != 200 ==> result == NO_CHANGES
    ensures Listed(LastRow(rows), FirstSeen(rows))
    ensures status == 200 ==> IsHistory(LastRow(rows), FirstSeen(rows), result.changeHistory)
    ensures status == 200 ==> exists walks ::
              && AreWalks(LastRow(rows), FirstSeen(rows), Roots(LastRow(rows), FirstSeen(rows)), walks)
              && (forall id :: id in Flat(walks) ==> id in LastRow(rows))
              && result.changeHistory == SortByTime(Entries(LastRow(rows), Flat(walks)))
    ensures result.chainLength == |result.changeHistory|
    ensures result.sessionCount == |set c | c in result.changeHistory :: c.sessionId|
    ensures result.changeHistory == [] ==> result == NO_CHANGES
    ensures result.changeHistory != [] ==>
              var h, m := result.changeHistory, LastRow(rows);
              && h[0].turnId in m && h[|h| - 1].turnId in m
              && result.originatingIntent == Some(h[0].intent)
              && result.firstHash == Some(m[h[0].turnId].requestHash)
              && result.latestHash == Some(m[h[|h| - 1].turnId].requestHash)
  {
    hide IsWalk, Primary, Parent, SortByTime, Roots, Flat;
    OrderListsTurns(rows);
    if projectId == "" || artifactPath == "" {
      return 400, NO_CHANGES;
    }
    if ScopedElsewhere(keyProject, Some(projectId)) {
      return 403, NO_CHANGES;
    }
    var m, order := BuildTurnData(rows);
    var roots, childMap := IndexLinks(m, order);
    var ids: seq<string> := [];
    ghost var walks: seq<seq<string>> := [];
    FlatNone();
    for i := 0 to |roots|
      invariant |walks| == i && ids == Flat(walks)
      invariant forall j :: 0 <= j < i ==> IsWalk(m, order, roots[j], walks[j])
    {
      RootsOf(m, order, roots[i]);
      var walk := WalkFrom(m, order, childMap, roots[i]);
      FlatMore(walks, walk);
      ids := ids + walk;
      walks := walks + [walk];
    }
    assert AreWalks(m, order, roots, walks);
    WalksMakeHistory(m, order, walks);
    var changeHistory := SortByTime(Entries(m, ids));
    if changeHistory == [] {
      return 200, NO_CHANGES;
    }
    var first, latest := changeHistory[0], changeHistory[|changeHistory| - 1];
    result := Export(changeHistory, Some(first.intent), |changeHistory|,
                     Some(m[first.turnId].requestHash), Some(m[latest.turnId].requestHash), |set c | c in changeHistory :: c.sessionId|);
    status := 200;
  }

  lemma FlatNone()
    ensures Flat([]) == []
  {}

  lemma FlatMore(walks: seq<seq<string>>, walk: seq<string>)
    ensures Flat(walks + [walk]) == Flat(walks) + walk
  {
    assert (walks + [walk])[..|walks|] == walks;
  }

  method BuildTurnData(rows: seq<Row>) returns (m: Turns, order: seq<string>)
    ensures m == LastRow(rows) && order == FirstSeen(rows)
  {
    m, order := map[], [];
    for i := 0 to |rows|
      invariant m == LastRow(rows[..i]) && order == FirstSeen(rows[..i])
    {
      assert rows[..i + 1][..i] == rows[..i];
      OrderListsTurns(rows[..i]);
      if rows[i].turnId !in m {
        order := order + [rows[i].turnId];
      }
      m := m[rows[i].turnId := rows[i]];
    }
    assert rows[..|rows|] == rows;
  }
}
