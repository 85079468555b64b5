/**
 The replacement stage of the plugin (groupShapesByClass.js, lines 75-107).
 Each recorded run is replaced, in map order, by one `g` wrapper; the child
 list shrinks as it goes, and a running count of removed positions turns the
 original indexes into positions in the shrunken list. The result is the
 single-pass rebuild of `SinglePass` with each run's wrapper as its group.
 */
module RunReplacement {
  import opened Nodes
  import opened RunDetection
  import opened SinglePass
  import Seqs

  /** The run's members with the run's class removed from each, in their original order. */
  function Members(content: seq<Node>, e: Entry): (r: seq<Node>)
    requires forall i :: 0 <= i < |e.indexes| ==> e.indexes[i] < |content|
    ensures |r| == |e.indexes|
    ensures forall i :: 0 <= i < |r| ==> r[i] == Strip(content[e.indexes[i]], e.className)
  {
    seq(|e.indexes|, i requires 0 <= i < |e.indexes| => Strip(content[e.indexes[i]], e.className))
  }

  /** The wrapper of every run, in map order. */
  function Groups(content: seq<Node>, entries: seq<Entry>): (gs: seq<Node>)
    requires Layout(entries, |content|)
    ensures |gs| == |entries|
  {
    seq(|entries|, a requires 0 <= a < |entries| =>
      IndexesInRange(entries, |content|, a);
      Wrapper(entries[a].className, Members(content, entries[a])))
  }

  /** The new child list, built in one pass over the original one. */
  function OnePass(content: seq<Node>, entries: seq<Entry>): seq<Node>
    requires Layout(entries, |content|)
  {
    Rebuild(content, Groups(content, entries), entries)
  }

  /**
   `spliceContent(start, n, node)`: replaces `count` positions from `start`
   with `x`, with the clamping of `Array.prototype.splice` when the range
   runs past the end.
   */
  function SpliceContent<T>(s: seq<T>, start: nat, count: nat, x: T): (r: seq<T>)
    ensures start + count <= |s| ==>
      && |r| == |s| - count + 1
      && r[..start] == s[..start] && r[start] == x && r[start + 1..] == s[start + count..]
    ensures start > |s| ==> r == s + [x]
  {
    var st := if start <= |s| then start else |s|;
    var cnt := if count <= |s| - st then count else |s| - st;
    s[..st] + [x] + s[st + cnt..]
  }

  /**
   The shape of the child list during the replacement: a finished part
   `done`, `removed` positions shorter than the original prefix before `p`,
   followed by the untouched original children from `p` on.
   */
  ghost predicate Spliced<T>(content: seq<T>, p: nat, done: seq<T>, live: seq<T>, removed: nat) {
    && p <= |content|
    && removed <= p
    && |done| == p - removed
    && live == done + content[p..]
  }

  /** In that shape, an original index `idx` at or after `p` is found at `idx - removed`. */
  lemma Addressing<T>(content: seq<T>, p: nat, done: seq<T>, live: seq<T>, removed: nat, idx: nat)
    requires Spliced(content, p, done, live, removed)
    requires p <= idx < |content|
    ensures removed <= idx && idx - removed < |live| && live[idx - removed] == content[idx]
  {
    assert live[idx - removed] == content[p..][idx - p];
  }

  /**
   Splicing `g` over `count` positions at `s - removed` keeps the shape: the
   skipped original children and `g` join the finished part, and `count - 1`
   more positions are removed.
   */
  lemma SpliceAround<T>(content: seq<T>, p: nat, done: seq<T>, live: seq<T>, removed: nat, s: nat, count: nat, g: T)
    requires Spliced(content, p, done, live, removed)
    requires p <= s && 0 < count && s + count <= |content|
    ensures removed <= s
    ensures Spliced(content, s + count, done + content[p..s] + [g],
                    SpliceContent(live, s - removed, count, g), removed + count - 1)
  {
    var tail := content[p..];
    var st := s - removed;
    Seqs.TakeAppend(done, tail, st);
    Seqs.TakeOfDrop(content, p, s - p);
    Seqs.DropAppend(done, tail, st + count);
    Seqs.DropOfDrop(content, p, s + count - p);
  }

  /** Every index of run `e`, less `removed`, addresses a child of `live`. */
  predicate Pickable(live: seq<Node>, e: Entry, removed: nat) {
    && |e.indexes| > 0
    && forall i :: 0 <= i < |e.indexes| ==> removed <= e.indexes[i] && e.indexes[i] - removed < |live|
  }

  /** The members the plugin picks for run `e` from the shrunken list, at `idx - removed`. */
  function Picked(live: seq<Node>, e: Entry, removed: nat): (r: seq<Node>)
    requires Pickable(live, e, removed)
    ensures |r| == |e.indexes|
    ensures forall i :: 0 <= i < |r| ==> r[i] == Strip(live[e.indexes[i] - removed], e.className)
  {
    seq(|e.indexes|, i requires 0 <= i < |e.indexes| => Strip(live[e.indexes[i] - removed], e.className))
  }

  /** Before run `k` is replaced, the members picked for it are its original members. */
  lemma PickedMembers(content: seq<Node>, entries: seq<Entry>, k: nat, done: seq<Node>, live: seq<Node>, removed: nat)
    requires Layout(entries, |content|) && k < |entries|
    requires Spliced(content, Frontier(entries, k), done, live, removed)
    ensures Pickable(live, entries[k], removed)
    ensures Wrapper(entries[k].className, Picked(live, entries[k], removed)) == Groups(content, entries)[k]
  {
    LayoutSpans(entries, |content|);
    EarlierRunsEnd(entries, |content|, k);
    IndexesInRange(entries, |content|, k);
    var e, p := entries[k], Frontier(entries, k);
    var ix := e.indexes;
    forall i | 0 <= i < |ix|
      ensures removed <= ix[i] && ix[i] - removed < |live| && live[ix[i] - removed] == content[ix[i]]
    {
      assert ix[i] == ix[0] + i;
      Addressing(content, p, done, live, removed, ix[i]);
    }
    assert Picked(live, e, removed) == Members(content, e);
  }

  /**
   The loop's state after `k` rounds: the finished part is the rebuild up to
   the end of run `k - 1`, and the list has that shape with `Removed(k)`
   positions gone.
   */
  ghost predicate Stage<T>(content: seq<T>, groups: seq<T>, entries: seq<Entry>, k: nat, done: seq<T>, live: seq<T>, removed: nat) {
    && Spans(entries) && |groups| == |entries| && k <= |entries|
    && removed == Removed(entries, k)
    && Frontier(entries, k) <= |content|
    && done == Pass(content, groups, entries, k, Frontier(entries, k))
    && Spliced(content, Frontier(entries, k), done, live, removed)
  }

  /**
   One round of the replacement loop, for any kind of child: splicing run
   `k`'s group over the run extends the finished part to the rebuild up to
   the end of run `k`.
   */
  lemma SpliceRound<T>(content: seq<T>, groups: seq<T>, entries: seq<Entry>, k: nat, done: seq<T>, live: seq<T>, removed: nat, g: T)
    returns (done': seq<T>)
    requires Layout(entries, |content|) && k < |entries|
    requires Stage(content, groups, entries, k, done, live, removed)
    requires g == groups[k]
    ensures removed <= entries[k].indexes[0]
    ensures Stage(content, groups, entries, k + 1, done',
                  SpliceContent(live, entries[k].indexes[0] - removed, |entries[k].indexes|, g),
                  removed + |entries[k].indexes| - 1)
  {
    PassToEndOfRun(content, groups, entries, k);
    var ix := entries[k].indexes;
    assert ix[|ix| - 1] == ix[0] + |ix| - 1;
    assert Frontier(entries, k + 1) == ix[0] + |ix|;
    done' := done + content[Frontier(entries, k)..ix[0]] + [g];
    SpliceAround(content, Frontier(entries, k), done, live, removed, ix[0], |ix|, g);
  }

  /**
   One round of the plugin's loop for run `e`: build the wrapper from the
   members picked at `idx - removed` and splice it over the run.
   */
  function Round(live: seq<Node>, e: Entry, removed: nat): (r: seq<Node>)
    requires Pickable(live, e, removed)
    ensures e.indexes[0] - removed + |e.indexes| <= |live| ==> |r| == |live| - |e.indexes| + 1
  {
    SpliceContent(live, e.indexes[0] - removed, |e.indexes|, Wrapper(e.className, Picked(live, e, removed)))
  }

  /** One round takes the loop from the state after `k` rounds to the state after `k + 1`. */
  lemma ReplaceStep(content: seq<Node>, groups: seq<Node>, entries: seq<Entry>, k: nat, done: seq<Node>, live: seq<Node>, removed: nat)
    returns (done': seq<Node>)
    requires Layout(entries, |content|) && k < |entries|
    requires groups == Groups(content, entries)
    requires Stage(content, groups, entries, k, done, live, removed)
    ensures Pickable(live, entries[k], removed)
    ensures Stage(content, groups, entries, k + 1, done', Round(live, entries[k], removed), removed + |entries[k].indexes| - 1)
  {
    PickedMembers(content, entries, k, done, live, removed);
    var g := Wrapper(entries[k].className, Picked(live, entries[k], removed));
    assert g == groups[k];
    assert Round(live, entries[k], removed) == SpliceContent(live, entries[k].indexes[0] - removed, |entries[k].indexes|, g);
    done' := SpliceRound(content, groups, entries, k, done, live, removed, g);
  }

  /** Before the first round, nothing is finished and nothing is removed. */
  lemma StageAtStart<T>(content: seq<T>, groups: seq<T>, entries: seq<Entry>)
    requires Layout(entries, |content|) && |groups| == |entries|
    ensures Stage(content, groups, entries, 0, [], content, 0)
  {
    LayoutSpans(entries, |content|);
    Seqs.SliceAll(content, 0);
  }

  /** After the last round, the list is the whole rebuild, shorter by the removed count. */
  lemma SplicedAtEnd<T>(content: seq<T>, groups: seq<T>, entries: seq<Entry>, done: seq<T>, live: seq<T>, removed: nat)
    requires Layout(entries, |content|)
    requires Stage(content, groups, entries, |entries|, done, live, removed)
    ensures live == Rebuild(content, groups, entries)
    ensures |live| == |content| - removed
  {
    var k := |entries|;
    EarlierRunsEnd(entries, |content|, k);
    var p := Frontier(entries, k);
    PassAfterRuns(content, groups, entries, k, p, |content|);
    Seqs.SliceAll(content, p);
  }

  /**
   The replacement as the plugin performs it: for each run in map order,
   pick its members at `idx - removed`, strip the class from each, build the
   wrapper, splice it over the run, and add `length - 1` to `removed`. The
   result is the single-pass rebuild, shorter by the removed count.
   */
  method ReplaceRuns(content: seq<Node>, entries: seq<Entry>) returns (result: seq<Node>)
    requires Layout(entries, |content|)
    ensures result == OnePass(content, entries)
    ensures |result| == |content| - TotalRemoved(entries)
  {
    result := content;
    var removed: nat := 0;
    var k := 0;
    ghost var groups := Groups(content, entries);
    ghost var done: seq<Node> := [];
    StageAtStart(content, groups, entries);
    while k < |entries|
      invariant k <= |entries|
      invariant Stage(content, groups, entries, k, done, result, removed)
    {
      done := ReplaceStep(content, groups, entries, k, done, result, removed);
      result := Round(result, entries[k], removed);
      removed := removed + |entries[k].indexes| - 1;
      k := k + 1;
    }
    SplicedAtEnd(content, groups, entries, done, result, removed);
  }
}
