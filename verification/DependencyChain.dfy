/**
 `scripts/audit_deps.ts`: why a package is in the lock file.  Two passes transpose the
 lock's dependency lists into a child-to-parents map, and a first-in-first-out search
 carrying paths climbs from the package to the nearest direct dependency.
 */
module DependencyChain {
  import opened Options
  import opened Text

  /** An entry of the lock's `npm` table, in the table's order. */
  datatype Entry = Entry(key: string, dependencies: seq<string>)

  /** A queued key with the path that reached it, the target first. */
  datatype Visit = Visit(key: string, path: seq<string>)

  /** The index of the last `c`, or -1. */
  function LastIndexOf(s: string, c: char): (i: int)
    ensures -1 <= i < |s|
    ensures i >= 0 ==> s[i] == c
    ensures forall j :: i < j < |s| ==> s[j] != c
  {
    if s == [] then -1
    else if s[|s| - 1] == c then |s| - 1
    else LastIndexOf(s[..|s| - 1], c)
  }

  /** The package name of a lock key: what stands before its last `@`, unless that `@` is
      missing or the first character. */
  function NameOf(key: string): Option<string> {
    var lastAt := LastIndexOf(key, '@');
    if lastAt <= 0 then None else Some(key[..lastAt])
  }

  // ----- Transposing the lock -----

  predicate IsKey(npm: seq<Entry>, key: string) {
    exists i :: 0 <= i < |npm| && npm[i].key == key
  }

  /** The lock entry of `parent` lists the name of the locked package `child`. */
  ghost predicate Lists(npm: seq<Entry>, parent: string, child: string) {
    IsKey(npm, child) && NameOf(child).Some? &&
    exists i :: 0 <= i < |npm| && npm[i].key == parent && NameOf(child).value in npm[i].dependencies
  }

  ghost predicate Maps(m: map<string, seq<string>>, from: string, to: string) {
    from in m && to in m[from]
  }

  method BuildNameToKeyMap(npm: seq<Entry>) returns (m: map<string, seq<string>>)
    ensures forall name, key :: Maps(m, name, key) <==> IsKey(npm, key) && NameOf(key) == Some(name)
  {
    m := map[];
    for i := 0 to |npm|
      invariant forall name, key :: Maps(m, name, key) <==> IsKey(npm[..i], key) && NameOf(key) == Some(name)
    {
      var key := npm[i].key;
      ghost var before := m;
      var name := NameOf(key);
      if name.Some? {
        m := m[name.value := (if name.value in m then m[name.value] else []) + [key]];
      }
      forall k ensures IsKey(npm[..i + 1], k) <==> IsKey(npm[..i], k) || k == key {
        assert npm[..i + 1] == npm[..i] + [npm[i]];
        if IsKey(npm[..i], k) {
          var j :| 0 <= j < i && npm[..i][j].key == k;
          assert npm[..i + 1][j].key == k;
        }
        assert npm[..i + 1][i].key == key;
      }
      assert forall n, k :: Maps(m, n, k) <==> Maps(before, n, k) || (NameOf(key) == Some(n) && k == key);
    }
    assert npm[..|npm|] == npm;
  }

  /** `parent` is the `i`-th entry and `child` is a key of one of its first `j` dependencies. */
  ghost predicate Added(npm: seq<Entry>, nameToKeys: map<string, seq<string>>, i: nat, j: nat, parent: string, child: string)
    requires i < |npm| && j <= |npm[i].dependencies|
  {
    npm[i].key == parent && exists d :: 0 <= d < j && Maps(nameToKeys, npm[i].dependencies[d], child)
  }

  ghost predicate AddedBefore(npm: seq<Entry>, nameToKeys: map<string, seq<string>>, i: nat, parent: string, child: string)
    requires i <= |npm|
  {
    exists e :: 0 <= e < i && Added(npm, nameToKeys, e, |npm[e].dependencies|, parent, child)
  }

  method BuildReverseDeps(npm: seq<Entry>, nameToKeys: map<string, seq<string>>)
    returns (reverse: map<string, seq<string>>)
    ensures forall parent, child ::
      Maps(reverse, child, parent) <==> AddedBefore(npm, nameToKeys, |npm|, parent, child)
  {
    reverse := map[];
    for i := 0 to |npm|
      invariant forall p, c :: Maps(reverse, c, p) <==> AddedBefore(npm, nameToKeys, i, p, c)
    {
      var parent, deps := npm[i].key, npm[i].dependencies;
      for j := 0 to |deps|
        invariant forall p, c :: Maps(reverse, c, p) <==>
          AddedBefore(npm, nameToKeys, i, p, c) || Added(npm, nameToKeys, i, j, p, c)
      {
        var depKeys := if deps[j] in nameToKeys then nameToKeys[deps[j]] else [];
        ghost var before := reverse;
        for l := 0 to |depKeys|
          invariant forall p, c :: Maps(reverse, c, p) <==> Maps(before, c, p) || (p == parent && c in depKeys[..l])
        {
          var parents := if depKeys[l] in reverse then reverse[depKeys[l]] else [];
          reverse := reverse[depKeys[l] := parents + [parent]];
          assert depKeys[..l + 1] == depKeys[..l] + [depKeys[l]];
        }
        assert depKeys[..|depKeys|] == depKeys;
        forall p, c
          ensures Added(npm, nameToKeys, i, j + 1, p, c) <==>
            Added(npm, nameToKeys, i, j, p, c) || (p == parent && c in depKeys)
        {
          AddedStep(npm, nameToKeys, i, j, p, c);
        }
      }
      forall p, c
        ensures AddedBefore(npm, nameToKeys, i + 1, p, c) <==>
          AddedBefore(npm, nameToKeys, i, p, c) || Added(npm, nameToKeys, i, |deps|, p, c)
      {
      }
    }
  }

  lemma AddedStep(npm: seq<Entry>, nameToKeys: map<string, seq<string>>, i: nat, j: nat, p: string, c: string)
    requires i < |npm| && j < |npm[i].dependencies|
    ensures Added(npm, nameToKeys, i, j + 1, p, c) <==>
      Added(npm, nameToKeys, i, j, p, c)
      || (npm[i].key == p && Maps(nameToKeys, npm[i].dependencies[j], c))
  {
  }

  /** The two passes together are the exact transpose of the lock's dependency lists. */
  lemma TransposeIsExact(npm: seq<Entry>, nameToKeys: map<string, seq<string>>, parent: string, child: string)
    requires forall name, key :: Maps(nameToKeys, name, key) <==> IsKey(npm, key) && NameOf(key) == Some(name)
    ensures AddedBefore(npm, nameToKeys, |npm|, parent, child) <==> Lists(npm, parent, child)
  {
    if Lists(npm, parent, child) {
      var i :| 0 <= i < |npm| && npm[i].key == parent && NameOf(child).value in npm[i].dependencies;
      var d :| 0 <= d < |npm[i].dependencies| && npm[i].dependencies[d] == NameOf(child).value;
      assert Maps(nameToKeys, npm[i].dependencies[d], child);
      assert Added(npm, nameToKeys, i, |npm[i].dependencies|, parent, child);
    }
  }

  // ----- Climbing to a direct dependency -----

  ghost predicate Walk(reverse: map<string, seq<string>>, target: string, w: seq<string>) {
    && w != [] && w[0] == target
    && forall i :: 0 <= i < |w| - 1 ==> Maps(reverse, w[i], w[i + 1])
  }

  predicate IsDirect(direct: set<string>, key: string) {
    NameOf(key).Some? && NameOf(key).value in direct
  }

  /** A walk up to a direct dependency other than the target. */
  ghost predicate Explains(reverse: map<string, seq<string>>, direct: set<string>, target: string, w: seq<string>) {
    Walk(reverse, target, w) && IsDirect(direct, w[|w| - 1]) && w[|w| - 1] != target
  }

  function Reversed<T>(s: seq<T>): (r: seq<T>)
    ensures |r| == |s| && forall i :: 0 <= i < |s| ==> r[i] == s[|s| - 1 - i]
  {
    seq(|s|, i requires 0 <= i < |s| => s[|s| - 1 - i])
  }

  /** The length of the walk that first reached each visited key is the shortest there is. */
  ghost predicate Shortest(reverse: map<string, seq<string>>, target: string, depth: map<string, nat>) {
    forall w :: Walk(reverse, target, w) && w[|w| - 1] in depth ==> depth[w[|w| - 1]] <= |w|
  }

  ghost predicate Queued(queue: seq<Visit>, key: string, length: nat) {
    exists i :: 0 <= i < |queue| && queue[i].key == key && |queue[i].path| <= length
  }

  /** Every parent of a visited key is visited, or queued with a path one longer. */
  ghost predicate Frontier(reverse: map<string, seq<string>>, depth: map<string, nat>, queue: seq<Visit>) {
    forall child, parent :: child in depth && Maps(reverse, child, parent) ==>
      parent in depth || Queued(queue, parent, depth[child] + 1)
  }

  /** A walk to a key not visited yet leaves the visited keys through the queue. */
  lemma {:induction false} WalkLeaves(
    reverse: map<string, seq<string>>, target: string, depth: map<string, nat>, queue: seq<Visit>, w: seq<string>)
    requires Walk(reverse, target, w) && w[|w| - 1] !in depth
    requires target in depth || Queued(queue, target, 1)
    requires Shortest(reverse, target, depth) && Frontier(reverse, depth, queue)
    ensures exists i :: 0 <= i < |queue| && queue[i].key !in depth && |queue[i].path| <= |w|
  {
    if |w| > 1 {
      var v := w[..|w| - 1];
      assert Walk(reverse, target, v);
      assert Maps(reverse, v[|v| - 1], w[|w| - 1]);
      if v[|v| - 1] !in depth {
        WalkLeaves(reverse, target, depth, queue, v);
      } else {
        assert Queued(queue, w[|w| - 1], depth[v[|v| - 1]] + 1);
      }
    }
  }

  /** Path lengths in the queue never decrease and span at most two values. */
  predicate Layered(queue: seq<Visit>) {
    && (forall i, j :: 0 <= i < j < |queue| ==> |queue[i].path| <= |queue[j].path|)
    && (forall i :: 0 <= i < |queue| ==> |queue[i].path| <= |queue[0].path| + 1)
  }

  ghost predicate QueueOk(reverse: map<string, seq<string>>, target: string, queue: seq<Visit>) {
    && Layered(queue)
    && forall i :: 0 <= i < |queue| ==>
         Walk(reverse, target, queue[i].path) && queue[i].path[|queue[i].path| - 1] == queue[i].key
  }

  ghost function Universe(reverse: map<string, seq<string>>, target: string): set<string> {
    {target} + set child, parent | child in reverse && parent in reverse[child] :: parent
  }

  /** The chain printed for `target`: reversed, a walk explaining it, as short as any; or the
      target alone exactly when nothing explains it. */
  ghost predicate IsAnswer(reverse: map<string, seq<string>>, direct: set<string>, target: string, chain: seq<string>) {
    if exists w :: Explains(reverse, direct, target, w) then
      Explains(reverse, direct, target, Reversed(chain))
      && forall w :: Explains(reverse, direct, target, w) ==> |chain| <= |w|
    else
      chain == [target]
  }

  /** What the search knows between two visits. */
  ghost predicate Searching(
    reverse: map<string, seq<string>>, direct: set<string>, target: string, depth: map<string, nat>, queue: seq<Visit>)
  {
    && QueueOk(reverse, target, queue)
    && (target in depth || queue == [Visit(target, [target])])
    && (forall k :: k in depth ==> !IsDirect(direct, k) || k == target)
    && Shortest(reverse, target, depth)
    && Frontier(reverse, depth, queue)
  }

  ghost predicate Within(keys: set<string>, queue: seq<Visit>) {
    forall i :: 0 <= i < |queue| ==> queue[i].key in keys
  }

  method TraceDependencyChain(target: string, reverse: map<string, seq<string>>, direct: set<string>)
    returns (chain: seq<string>)
    ensures IsAnswer(reverse, direct, target, chain)
  {
    ghost var keys := Universe(reverse, target);
    var visited: set<string> := {};
    var queue := [Visit(target, [target])];
    ghost var depth: map<string, nat> := map[];
    while queue != []
      invariant visited == depth.Keys && visited <= keys && Within(keys, queue)
      invariant Searching(reverse, direct, target, depth, queue)
      decreases keys - visited, |queue|
    {
      var current := queue[0];
      ghost var before := queue;
      Shifts(reverse, target, keys, queue);
      queue := queue[1..];
      if current.key in visited {
        DropKeepsSearching(reverse, direct, target, depth, before);
        continue;
      }
      if IsDirect(direct, current.key) && |current.path| > 1 {
        FoundIsShortest(reverse, direct, target, depth, before);
        return Reversed(current.path);
      }
      visited := visited + {current.key};
      queue := PushParents(reverse, target, visited, queue, current);
      VisitKeepsSearching(reverse, direct, target, depth, before, queue);
      depth := Deeper(keys, depth, current);
    }
    NothingExplains(reverse, direct, target, depth);
    chain := [target];
  }

  lemma Shifts(reverse: map<string, seq<string>>, target: string, keys: set<string>, queue: seq<Visit>)
    requires queue != [] && QueueOk(reverse, target, queue) && Within(keys, queue)
    ensures queue[0].key in keys && Within(keys, queue[1..])
    ensures QueueOk(reverse, target, [queue[0]]) && QueueOk(reverse, target, queue[1..])
    ensures forall j :: 0 <= j < |queue| - 1 ==> |queue[0].path| <= |queue[1..][j].path| <= |queue[0].path| + 1
  {
    assert forall j :: 0 <= j < |queue| - 1 ==> queue[1..][j] == queue[j + 1];
  }

  lemma NothingExplains(reverse: map<string, seq<string>>, direct: set<string>, target: string, depth: map<string, nat>)
    requires Searching(reverse, direct, target, depth, [])
    ensures IsAnswer(reverse, direct, target, [target])
  {
    forall w ensures !Explains(reverse, direct, target, w) {
      if Explains(reverse, direct, target, w) {
        WalkLeaves(reverse, target, depth, [], w);
      }
    }
  }

  ghost function Deeper(keys: set<string>, depth: map<string, nat>, current: Visit): (depth': map<string, nat>)
    requires current.key in keys && current.key !in depth
    ensures depth' == depth[current.key := |current.path|] && depth'.Keys == depth.Keys + {current.key}
    ensures keys - (depth.Keys + {current.key}) < keys - depth.Keys
  {
    assert current.key in keys - depth.Keys;
    depth[current.key := |current.path|]
  }

  /** The front of the queue is as near as any key not visited yet. */
  lemma FirstIsNearest(
    reverse: map<string, seq<string>>, direct: set<string>, target: string, depth: map<string, nat>, queue: seq<Visit>)
    requires queue != [] && Searching(reverse, direct, target, depth, queue)
    ensures forall w :: Walk(reverse, target, w) && w[|w| - 1] !in depth ==> |queue[0].path| <= |w|
  {
    forall w | Walk(reverse, target, w) && w[|w| - 1] !in depth ensures |queue[0].path| <= |w| {
      WalkLeaves(reverse, target, depth, queue, w);
    }
  }

  lemma FoundIsShortest(
    reverse: map<string, seq<string>>, direct: set<string>, target: string, depth: map<string, nat>, queue: seq<Visit>)
    requires queue != [] && Searching(reverse, direct, target, depth, queue)
    requires IsDirect(direct, queue[0].key) && |queue[0].path| > 1 && queue[0].key !in depth
    ensures IsAnswer(reverse, direct, target, Reversed(queue[0].path))
  {
    FirstIsNearest(reverse, direct, target, depth, queue);
    assert Reversed(Reversed(queue[0].path)) == queue[0].path;
    assert Explains(reverse, direct, target, queue[0].path);
  }

  /** `queue` is `rest` with those of the first `i` parents appended that are not visited. */
  ghost predicate Pushed(
    reverse: map<string, seq<string>>, target: string, visited: set<string>, rest: seq<Visit>, current: Visit,
    parents: seq<string>, i: nat, queue: seq<Visit>)
    requires i <= |parents|
  {
    && rest <= queue && QueueOk(reverse, target, queue)
    && (forall j :: 0 <= j < |queue| ==> |current.path| <= |queue[j].path| <= |current.path| + 1)
    && (Within(Universe(reverse, target), rest) ==> Within(Universe(reverse, target), queue))
    && (forall j :: 0 <= j < i ==> parents[j] in visited || Queued(queue, parents[j], |current.path| + 1))
  }

  /** The parents not visited yet join the back of the queue, one layer further out. */
  method PushParents(
    reverse: map<string, seq<string>>, target: string, visited: set<string>, rest: seq<Visit>, current: Visit)
    returns (queue: seq<Visit>)
    requires forall j :: 0 <= j < |rest| ==> |current.path| <= |rest[j].path| <= |current.path| + 1
    requires QueueOk(reverse, target, [current]) && QueueOk(reverse, target, rest)
    ensures rest <= queue && QueueOk(reverse, target, queue)
    ensures Within(Universe(reverse, target), rest) ==> Within(Universe(reverse, target), queue)
    ensures forall p :: Maps(reverse, current.key, p) ==> p in visited || Queued(queue, p, |current.path| + 1)
  {
    var parents := if current.key in reverse then reverse[current.key] else [];
    queue := rest;
    for i := 0 to |parents|
      invariant Pushed(reverse, target, visited, rest, current, parents, i, queue)
    {
      if parents[i] !in visited {
        var next := Visit(parents[i], current.path + [parents[i]]);
        PushKeeps(reverse, target, visited, rest, current, parents, i, queue, next);
        queue := queue + [next];
      }
    }
  }

  lemma PushKeeps(
    reverse: map<string, seq<string>>, target: string, visited: set<string>, rest: seq<Visit>, current: Visit,
    parents: seq<string>, i: nat, queue: seq<Visit>, next: Visit)
    requires i < |parents| && Pushed(reverse, target, visited, rest, current, parents, i, queue)
    requires QueueOk(reverse, target, [current])
    requires Maps(reverse, current.key, parents[i])
    requires next == Visit(parents[i], current.path + [parents[i]])
    ensures Pushed(reverse, target, visited, rest, current, parents, i + 1, queue + [next])
  {
    PushKeepsQueue(reverse, target, queue, current, next);
    QueuedGrows(queue, next);
    assert (queue + [next])[|queue|] == next;
    assert Queued(queue + [next], parents[i], |current.path| + 1);
  }

  lemma PushKeepsQueue(reverse: map<string, seq<string>>, target: string, queue: seq<Visit>, current: Visit, next: Visit)
    requires QueueOk(reverse, target, queue) && QueueOk(reverse, target, [current])
    requires forall j :: 0 <= j < |queue| ==> |current.path| <= |queue[j].path| <= |current.path| + 1
    requires Maps(reverse, current.key, next.key) && next.path == current.path + [next.key]
    ensures QueueOk(reverse, target, queue + [next])
  {
    assert [current][0] == current;
    assert Walk(reverse, target, next.path);
  }

  lemma VisitKeepsSearching(
    reverse: map<string, seq<string>>, direct: set<string>, target: string, depth: map<string, nat>,
    queue: seq<Visit>, queue': seq<Visit>)
    requires queue != [] && Searching(reverse, direct, target, depth, queue)
    requires queue[0].key !in depth && !(IsDirect(direct, queue[0].key) && |queue[0].path| > 1)
    requires queue[1..] <= queue' && QueueOk(reverse, target, queue')
    requires forall p :: Maps(reverse, queue[0].key, p) ==>
      p in depth.Keys + {queue[0].key} || Queued(queue', p, |queue[0].path| + 1)
    ensures Searching(reverse, direct, target, depth[queue[0].key := |queue[0].path|], queue')
  {
    FirstIsNearest(reverse, direct, target, depth, queue);
    VisitKeepsFrontier(reverse, depth, queue, queue', queue[0]);
    assert |queue[0].path| <= 1 ==> queue[0].path == [target];
  }

  lemma QueuedGrows(queue: seq<Visit>, next: Visit)
    ensures forall key, n: nat :: Queued(queue, key, n) ==> Queued(queue + [next], key, n)
  {
    forall key, n: nat | Queued(queue, key, n) ensures Queued(queue + [next], key, n) {
      var i :| 0 <= i < |queue| && queue[i].key == key && |queue[i].path| <= n;
      assert (queue + [next])[i] == queue[i];
    }
  }

  lemma DropKeepsSearching(
    reverse: map<string, seq<string>>, direct: set<string>, target: string, depth: map<string, nat>, queue: seq<Visit>)
    requires queue != [] && queue[0].key in depth && Searching(reverse, direct, target, depth, queue)
    ensures Searching(reverse, direct, target, depth, queue[1..])
  {
    DropKeepsFrontier(reverse, depth, queue);
    assert forall j :: 0 <= j < |queue| - 1 ==> queue[1..][j] == queue[j + 1];
  }

  lemma DropKeepsFrontier(reverse: map<string, seq<string>>, depth: map<string, nat>, queue: seq<Visit>)
    requires queue != [] && queue[0].key in depth && Frontier(reverse, depth, queue)
    ensures Frontier(reverse, depth, queue[1..])
  {
    forall child, parent | child in depth && Maps(reverse, child, parent) && parent !in depth
      ensures Queued(queue[1..], parent, depth[child] + 1)
    {
      assert Queued(queue, parent, depth[child] + 1);
      var i :| 0 <= i < |queue| && queue[i].key == parent && |queue[i].path| <= depth[child] + 1;
      assert queue[1..][i - 1] == queue[i];
    }
  }

  lemma VisitKeepsFrontier(
    reverse: map<string, seq<string>>, depth: map<string, nat>, queue: seq<Visit>, queue': seq<Visit>, current: Visit)
    requires queue != [] && queue[0] == current && Frontier(reverse, depth, queue)
    requires current.key !in depth && queue[1..] <= queue'
    requires forall p :: Maps(reverse, current.key, p) ==>
      p in depth || p == current.key || Queued(queue', p, |current.path| + 1)
    ensures Frontier(reverse, depth[current.key := |current.path|], queue')
  {
    var depth' := depth[current.key := |current.path|];
    forall child, parent | child in depth' && Maps(reverse, child, parent) && parent !in depth'
      ensures Queued(queue', parent, depth'[child] + 1)
    {
      if child != current.key {
        assert Queued(queue, parent, depth[child] + 1);
        var i :| 0 <= i < |queue| && queue[i].key == parent && |queue[i].path| <= depth[child] + 1;
        assert queue'[i - 1] == queue[1..][i - 1] == queue[i];
      }
    }
  }

  // ----- The audit's answer, in terms of the lock -----

  /** From a direct dependency down to `target`, each entry listing the next one's name. */
  ghost predicate IsChain(npm: seq<Entry>, direct: set<string>, target: string, chain: seq<string>) {
    && |chain| > 1 && chain[|chain| - 1] == target && chain[0] != target
    && IsDirect(direct, chain[0])
    && forall i :: 0 <= i < |chain| - 1 ==> Lists(npm, chain[i], chain[i + 1])
  }

  lemma ChainIsWalk(npm: seq<Entry>, reverse: map<string, seq<string>>, direct: set<string>, target: string, chain: seq<string>)
    requires forall p, c :: Maps(reverse, c, p) <==> Lists(npm, p, c)
    ensures IsChain(npm, direct, target, chain) <==> Explains(reverse, direct, target, Reversed(chain))
  {
    var w := Reversed(chain);
    if IsChain(npm, direct, target, chain) {
      forall i | 0 <= i < |w| - 1 ensures Maps(reverse, w[i], w[i + 1]) {
        assert Lists(npm, chain[|chain| - 2 - i], chain[|chain| - 2 - i + 1]);
      }
    }
    if Explains(reverse, direct, target, w) {
      forall i | 0 <= i < |chain| - 1 ensures Lists(npm, chain[i], chain[i + 1]) {
        assert Maps(reverse, w[|w| - 2 - i], w[|w| - 2 - i + 1]);
      }
    }
  }

  /** A shortest chain from a direct dependency down to the target when there is one, and the target
      alone exactly when there is none. */
  ghost predicate IsExplanation(npm: seq<Entry>, direct: set<string>, target: string, chain: seq<string>) {
    if exists c :: IsChain(npm, direct, target, c) then
      IsChain(npm, direct, target, chain) && forall c :: IsChain(npm, direct, target, c) ==> |chain| <= |c|
    else
      chain == [target]
  }

  method Explain(npm: seq<Entry>, direct: set<string>, target: string) returns (chain: seq<string>)
    ensures IsExplanation(npm, direct, target, chain)
  {
    var nameToKeys := BuildNameToKeyMap(npm);
    var reverse := BuildReverseDeps(npm, nameToKeys);
    forall p, c ensures Maps(reverse, c, p) <==> Lists(npm, p, c) {
      TransposeIsExact(npm, nameToKeys, p, c);
    }
    chain := TraceDependencyChain(target, reverse, direct);
    forall c ensures IsChain(npm, direct, target, c) <==> Explains(reverse, direct, target, Reversed(c)) {
      ChainIsWalk(npm, reverse, direct, target, c);
    }
    forall w | Explains(reverse, direct, target, w) ensures IsChain(npm, direct, target, Reversed(w)) {
      assert Reversed(Reversed(w)) == w;
      ChainIsWalk(npm, reverse, direct, target, Reversed(w));
    }
  }

  // ----- One package of the lock -----

  /** What stands behind the last `@` of a lock key. */
  function RawVersion(key: string): string
    requires NameOf(key).Some?
  {
    key[LastIndexOf(key, '@') + 1..]
  }

  /** The key the search starts from: the version is cut at its first `_`. */
  function TargetKey(key: string): string
    requires NameOf(key).Some?
  {
    NameOf(key).value + "@" + Split(RawVersion(key), '_')[0]
  }

  lemma {:induction false} FirstPart(s: string, c: char)
    ensures Split(s, c)[0] <= s && (Split(s, c)[0] == s <==> c !in s)
  {
    if s != [] {
      FirstPart(s[1..], c);
      assert s == [s[0]] + s[1..];
    }
  }

  /** The package of a lock key is recognised exactly when no `@` follows the one before the version.
      A suffix that names a peer package holds one. */
  lemma NameIsFoundIff(name: string, version: string)
    requires name != ""
    ensures NameOf(name + "@" + version) == Some(name) <==> '@' !in version
  {
    var key := name + "@" + version;
    assert key[|name|] == '@';
    assert forall j :: |name| < j < |key| ==> key[j] == version[j - |name| - 1];
    assert key[..|name|] == name;
    if '@' in version {
      var k :| 0 <= k < |version| && version[k] == '@';
      assert key[|name| + 1 + k] == '@';
    }
  }

  /** A suffix that names a peer with its version, as the audit's own comment does, is never taken off:
      it becomes part of the package's name, and the version is the peer's. */
  lemma PeerSuffixIsName(name: string, version: string, peer: string, peerVersion: string)
    requires name != "" && '@' !in peerVersion
    ensures var key := name + "@" + version + "_" + peer + "@" + peerVersion;
      NameOf(key) == Some(name + "@" + version + "_" + peer) && RawVersion(key) == peerVersion
      && ('_' !in peerVersion ==> TargetKey(key) == key)
  {
    var long := name + "@" + version + "_" + peer;
    NameIsFoundIff(long, peerVersion);
    KeySplits(long + "@" + peerVersion);
    SameBehind(long + "@", RawVersion(long + "@" + peerVersion), peerVersion);
    TargetKeyIff(long + "@" + peerVersion);
  }

  lemma KeySplits(key: string)
    requires NameOf(key).Some?
    ensures key == NameOf(key).value + "@" + RawVersion(key) && NameOf(key).value != "" && '@' !in RawVersion(key)
  {
    var at := LastIndexOf(key, '@');
    assert key == key[..at] + [key[at]] + key[at + 1..];
    assert forall j :: 0 <= j < |RawVersion(key)| ==> RawVersion(key)[j] == key[at + 1 + j];
  }

  lemma SameBehind(prefix: string, a: string, b: string)
    ensures prefix + a == prefix + b <==> a == b
  {
    assert (prefix + a)[|prefix|..] == a && (prefix + b)[|prefix|..] == b;
  }

  /** The search's key has the package's name, and is the package's own key exactly when its version
      has no suffix. */
  lemma TargetKeyIff(key: string)
    requires NameOf(key).Some?
    ensures NameOf(TargetKey(key)) == NameOf(key)
    ensures TargetKey(key) == key <==> '_' !in RawVersion(key)
  {
    KeySplits(key);
    FirstPart(RawVersion(key), '_');
    NameIsFoundIff(NameOf(key).value, Split(RawVersion(key), '_')[0]);
    SameBehind(NameOf(key).value + "@", Split(RawVersion(key), '_')[0], RawVersion(key));
  }

  /** The audit of one package of the lock: a direct dependency is its own chain, any other package
      gets an explanation of the search's key. */
  method Audit(npm: seq<Entry>, direct: set<string>, key: string) returns (chain: seq<string>)
    requires NameOf(key).Some?
    ensures IsDirect(direct, key) ==> chain == [TargetKey(key)]
    ensures !IsDirect(direct, key) ==> IsExplanation(npm, direct, TargetKey(key), chain)
    ensures !IsDirect(direct, key) ==> (IsExplanation(npm, direct, key, chain) <==> '_' !in RawVersion(key))
  {
    TargetKeyIff(key);
    if NameOf(key).value in direct {
      chain := [TargetKey(key)];
    } else {
      chain := Explain(npm, direct, TargetKey(key));
    }
  }

  /** What is not a key of the lock has no chain. */
  lemma NoKeyNoChain(npm: seq<Entry>, direct: set<string>, target: string, c: seq<string>)
    requires !IsKey(npm, target)
    ensures !IsChain(npm, direct, target, c)
  {
    if |c| > 1 && c[|c| - 1] == target {
      assert !Lists(npm, c[|c| - 2], c[|c| - 2 + 1]);
    }
  }

  /** A package with a suffix, of no peer, that the lock explains and the audit does not. */
  lemma SuffixExample(chain: seq<string>)
    requires IsExplanation([Entry("b@1", ["a"]), Entry("a@1_p", [])], {"b"}, "a@1", chain)
    ensures NameOf("a@1_p") == Some("a") && TargetKey("a@1_p") == "a@1" && chain == ["a@1"]
    ensures IsChain([Entry("b@1", ["a"]), Entry("a@1_p", [])], {"b"}, "a@1_p", ["b@1", "a@1_p"])
  {
    var npm := [Entry("b@1", ["a"]), Entry("a@1_p", [])];
    ExampleKeys();
    assert npm[1].key == "a@1_p" && npm[0].key == "b@1" && "a" in npm[0].dependencies;
    assert Lists(npm, "b@1", "a@1_p");
    assert !IsKey(npm, "a@1") by { assert |"a@1"| == 3 && |"a@1_p"| == 5 && "a@1"[0] == 'a'; }
    forall c ensures !IsChain(npm, {"b"}, "a@1", c) {
      NoKeyNoChain(npm, {"b"}, "a@1", c);
    }
  }

  lemma ExampleKeys()
    ensures NameOf("b@1") == Some("b") && NameOf("a@1_p") == Some("a") && TargetKey("a@1_p") == "a@1"
  {
    assert '@' !in "1" && '@' !in "1_p";
    NameIsFoundIff("b", "1");
    NameIsFoundIff("a", "1_p");
    assert "b" + "@" + "1" == "b@1" && "a" + "@" + "1_p" == "a@1_p";
    assert RawVersion("a@1_p") == "1_p";
    SplitFirst("1", '_', "p");
    assert "1" + ['_'] + "p" == "1_p";
  }
}
