/**
 The rebuild of a child list around recorded runs, stated once for any kind
 of child: a child outside every run is copied, the first child of a run is
 replaced by that run's group, and the later children of a run are dropped.
 `Pass` replaces only the first `k` runs, which is the state the plugin's
 replacement loop reaches after `k` rounds.
 */
module SinglePass {
  import opened RunDetection
  import Seqs

  /** What the rebuild does with original child `j`. */
  datatype Role =
    | Copy           // outside every run: copied as it is
    | Open(a: nat)   // first child of run `a`: the run's group goes here
    | Inside(a: nat) // a later child of run `a`: now inside the group

  /** The role of child `j` when only the first `k` runs are replaced. */
  function RoleIn(entries: seq<Entry>, k: nat, j: nat): (r: Role)
    requires k <= |entries|
    requires Spans(entries)
    ensures (r.Open? || r.Inside?) ==> r.a < k
  {
    if k == 0 then Copy
    else if Start(entries[k - 1]) == j then Open(k - 1)
    else if Start(entries[k - 1]) < j <= End(entries[k - 1]) then Inside(k - 1)
    else RoleIn(entries, k - 1, j)
  }

  /**
   Child `j` opens run `a` exactly at the run's first index, is inside it
   after that up to its last index, and is copied exactly when none of the
   first `k` runs covers it.
   */
  lemma {:induction false} RoleInCases(entries: seq<Entry>, k: nat, j: nat)
    requires k <= |entries| && Spans(entries)
    ensures var r := RoleIn(entries, k, j);
      && (r.Open? ==> Start(entries[r.a]) == j)
      && (r.Inside? ==> Start(entries[r.a]) < j <= End(entries[r.a]))
      && (r.Copy? <==> forall a :: 0 <= a < k ==> !(Start(entries[a]) <= j <= End(entries[a])))
  {
    if k > 0 {
      RoleInCases(entries, k - 1, j);
    }
  }

  /** What the rebuild emits for child `j` when the first `k` runs are replaced by `groups`. */
  function Emit<T>(content: seq<T>, groups: seq<T>, entries: seq<Entry>, k: nat, j: nat): seq<T>
    requires Spans(entries) && |groups| == |entries| && k <= |entries| && j < |content|
  {
    match RoleIn(entries, k, j)
    case Copy => [content[j]]
    case Inside(_) => []
    case Open(a) => [groups[a]]
  }

  /** The rebuild of the first `j` children, replacing the first `k` runs. */
  function Pass<T>(content: seq<T>, groups: seq<T>, entries: seq<Entry>, k: nat, j: nat): seq<T>
    requires Spans(entries) && |groups| == |entries| && k <= |entries| && j <= |content|
  {
    if j == 0 then [] else Pass(content, groups, entries, k, j - 1) + Emit(content, groups, entries, k, j - 1)
  }

  /** Positions removed by the first `k` runs: a run of length L leaves one group, L - 1 fewer. */
  function Removed(entries: seq<Entry>, k: nat): nat
    requires k <= |entries|
    requires Spans(entries)
  {
    if k == 0 then 0 else Removed(entries, k - 1) + |entries[k - 1].indexes| - 1
  }

  /** The rebuild of the whole list with every run replaced. */
  function Rebuild<T>(content: seq<T>, groups: seq<T>, entries: seq<Entry>): seq<T>
    requires Spans(entries) && |groups| == |entries|
  {
    Pass(content, groups, entries, |entries|, |content|)
  }

  /** Positions removed once every run is replaced. */
  function TotalRemoved(entries: seq<Entry>): nat
    requires Spans(entries)
  {
    Removed(entries, |entries|)
  }

  /** The first original index after the first `k` runs (0 when `k` is 0). */
  function Frontier(entries: seq<Entry>, k: nat): nat
    requires k <= |entries|
    requires Spans(entries)
  {
    if k == 0 then 0 else End(entries[k - 1]) + 1
  }

  /** The runs before run `k` all end before the frontier after them. */
  lemma EarlierRunsEnd(entries: seq<Entry>, n: nat, k: nat)
    requires Layout(entries, n) && k <= |entries|
    ensures forall a :: 0 <= a < k ==> End(entries[a]) < Frontier(entries, k)
    ensures k < |entries| ==> Frontier(entries, k) <= Start(entries[k])
  {
    if k > 0 {
      forall a | 0 <= a < k - 1
        ensures End(entries[a]) < Frontier(entries, k)
      {
        assert End(entries[a]) < Start(entries[k - 1]);
        assert Interval(entries[k - 1].indexes);
      }
    }
  }

  /** A child outside the first `k` runs is copied as it is. */
  lemma CopyStep<T>(content: seq<T>, groups: seq<T>, entries: seq<Entry>, k: nat, j: nat)
    requires Spans(entries) && |groups| == |entries| && k <= |entries| && j < |content|
    requires forall a :: 0 <= a < k ==> !(Start(entries[a]) <= j <= End(entries[a]))
    ensures Pass(content, groups, entries, k, j + 1) == Pass(content, groups, entries, k, j) + [content[j]]
  {
    RoleInCases(entries, k, j);
  }

  /** The first child of run `k` emits the run's group. */
  lemma OpenStep<T>(content: seq<T>, groups: seq<T>, entries: seq<Entry>, k: nat)
    requires Spans(entries) && |groups| == |entries| && k < |entries|
    requires Start(entries[k]) < |content|
    ensures Pass(content, groups, entries, k + 1, Start(entries[k]) + 1)
         == Pass(content, groups, entries, k + 1, Start(entries[k])) + [groups[k]]
  {
    assert RoleIn(entries, k + 1, Start(entries[k])) == Open(k);
  }

  /** A later child of run `k` emits nothing. */
  lemma InsideStep<T>(content: seq<T>, groups: seq<T>, entries: seq<Entry>, k: nat, j: nat)
    requires Spans(entries) && |groups| == |entries| && k < |entries|
    requires End(entries[k]) < |content|
    requires Start(entries[k]) < j <= End(entries[k])
    ensures Pass(content, groups, entries, k + 1, j + 1) == Pass(content, groups, entries, k + 1, j)
  {
    assert RoleIn(entries, k + 1, j) == Inside(k);
  }

  /** Below the start of run `k`, replacing run `k` as well changes nothing. */
  lemma {:induction false} PassBeforeRun<T>(content: seq<T>, groups: seq<T>, entries: seq<Entry>, k: nat, j: nat)
    requires Spans(entries) && |groups| == |entries| && k < |entries|
    requires Start(entries[k]) <= |content|
    requires j <= Start(entries[k])
    ensures Pass(content, groups, entries, k + 1, j) == Pass(content, groups, entries, k, j)
  {
    if j > 0 {
      PassBeforeRun(content, groups, entries, k, j - 1);
      assert RoleIn(entries, k + 1, j - 1) == RoleIn(entries, k, j - 1);
    }
  }

  /** Past the end of the first `k` runs, the rebuild copies children as they are. */
  lemma {:induction false} PassAfterRuns<T>(content: seq<T>, groups: seq<T>, entries: seq<Entry>, k: nat, p: nat, j: nat)
    requires Spans(entries) && |groups| == |entries| && k <= |entries|
    requires forall a :: 0 <= a < k ==> End(entries[a]) < p
    requires p <= j <= |content|
    ensures Pass(content, groups, entries, k, j) == Pass(content, groups, entries, k, p) + content[p..j]
  {
    if j > p {
      var q := j - 1;
      PassAfterRuns(content, groups, entries, k, p, q);
      CopyStep(content, groups, entries, k, q);
      Seqs.SliceExtend(content, p, q);
      Seqs.AppendAssoc(Pass(content, groups, entries, k, p), content[p..q], [content[q]]);
    }
  }

  /** After the group of run `k`, the rest of that run emits nothing. */
  lemma {:induction false} PassThroughRun<T>(content: seq<T>, groups: seq<T>, entries: seq<Entry>, k: nat, j: nat)
    requires Spans(entries) && |groups| == |entries| && k < |entries|
    requires End(entries[k]) < |content|
    requires Start(entries[k]) < j <= End(entries[k]) + 1
    ensures Pass(content, groups, entries, k + 1, j)
         == Pass(content, groups, entries, k + 1, Start(entries[k])) + [groups[k]]
  {
    if j == Start(entries[k]) + 1 {
      OpenStep(content, groups, entries, k);
    } else {
      PassThroughRun(content, groups, entries, k, j - 1);
      InsideStep(content, groups, entries, k, j - 1);
    }
  }

  /**
   Replacing run `k` as well: the rebuild up to the end of run `k` is the
   rebuild up to the previous frontier, the untouched children before run
   `k`, and run `k`'s group.
   */
  lemma PassToEndOfRun<T>(content: seq<T>, groups: seq<T>, entries: seq<Entry>, k: nat)
    requires Layout(entries, |content|) && |groups| == |entries| && k < |entries|
    ensures Frontier(entries, k) <= Start(entries[k]) < Frontier(entries, k + 1) <= |content|
    ensures Pass(content, groups, entries, k + 1, Frontier(entries, k + 1))
         == Pass(content, groups, entries, k, Frontier(entries, k))
            + content[Frontier(entries, k)..Start(entries[k])] + [groups[k]]
  {
    LayoutSpans(entries, |content|);
    EarlierRunsEnd(entries, |content|, k);
    var p, s := Frontier(entries, k), Start(entries[k]);
    assert Interval(entries[k].indexes);
    PassAfterRuns(content, groups, entries, k, p, s);
    PassBeforeRun(content, groups, entries, k, s);
    PassThroughRun(content, groups, entries, k, Frontier(entries, k + 1));
  }

  /** Rebuilding more children only appends: a shorter prefix's rebuild is a prefix of a longer one's. */
  lemma {:induction false} PassPrefix<T>(content: seq<T>, groups: seq<T>, entries: seq<Entry>, k: nat, j: nat, j': nat)
    requires Spans(entries) && |groups| == |entries| && k <= |entries|
    requires j <= j' <= |content|
    ensures |Pass(content, groups, entries, k, j)| <= |Pass(content, groups, entries, k, j')|
    ensures Pass(content, groups, entries, k, j')[..|Pass(content, groups, entries, k, j)|]
         == Pass(content, groups, entries, k, j)
  {
    if j < j' {
      var q := j' - 1;
      PassPrefix(content, groups, entries, k, j, q);
      var short, mid := Pass(content, groups, entries, k, j), Pass(content, groups, entries, k, q);
      assert Pass(content, groups, entries, k, j') == mid + Emit(content, groups, entries, k, q);
      assert (mid + Emit(content, groups, entries, k, q))[..|short|] == mid[..|short|];
    }
  }

  /** With runs laid out, a child inside run `a` (one of the first `k`) opens it or sits inside it. */
  lemma {:induction false} RoleInLayout(entries: seq<Entry>, n: nat, k: nat, a: nat, j: nat)
    requires Layout(entries, n) && a < k <= |entries|
    requires Start(entries[a]) <= j <= End(entries[a])
    ensures Spans(entries)
    ensures RoleIn(entries, k, j) == if j == Start(entries[a]) then Open(a) else Inside(a)
  {
    LayoutSpans(entries, n);
    if a < k - 1 {
      assert End(entries[a]) < Start(entries[k - 1]);
      RoleInLayout(entries, n, k - 1, a, j);
    }
  }

  /**
   Where each original child ends up in the rebuild of all `n` children with
   the first `k` runs replaced: it lands at the length of the rebuild of the
   children before it; a child outside those runs lands there unchanged, and
   the first child of a run is replaced there by the run's group. Later
   members of a run leave nothing behind.
   */
  lemma Placement<T>(content: seq<T>, groups: seq<T>, entries: seq<Entry>, k: nat, j: nat)
    requires Spans(entries) && |groups| == |entries| && k <= |entries|
    requires j < |content|
    ensures var whole, at := Pass(content, groups, entries, k, |content|), |Pass(content, groups, entries, k, j)|;
      && (RoleIn(entries, k, j).Copy? ==> at < |whole| && whole[at] == content[j])
      && (RoleIn(entries, k, j).Open? ==> at < |whole| && whole[at] == groups[RoleIn(entries, k, j).a])
      && (RoleIn(entries, k, j).Inside? ==> |Pass(content, groups, entries, k, j + 1)| == at)
  {
    var q := j + 1;
    PassPrefix(content, groups, entries, k, q, |content|);
    var before := Pass(content, groups, entries, k, j);
    var upto := Pass(content, groups, entries, k, q);
    assert upto == before + Emit(content, groups, entries, k, j);
    if !RoleIn(entries, k, j).Inside? {
      assert upto[|before|] == Pass(content, groups, entries, k, |content|)[|before|];
    }
  }

  /** Children that leave something behind keep their relative order. */
  lemma Order<T>(content: seq<T>, groups: seq<T>, entries: seq<Entry>, k: nat, j: nat, j': nat)
    requires Spans(entries) && |groups| == |entries| && k <= |entries|
    requires j < j' < |content|
    requires !RoleIn(entries, k, j).Inside?
    ensures |Pass(content, groups, entries, k, j)| < |Pass(content, groups, entries, k, j')|
  {
    var q := j + 1;
    PassPrefix(content, groups, entries, k, q, j');
    assert Pass(content, groups, entries, k, q)
        == Pass(content, groups, entries, k, j) + Emit(content, groups, entries, k, j);
  }

  /** With no runs to replace, the rebuild is the original list. */
  lemma NoRunsCopies<T>(content: seq<T>)
    ensures Rebuild(content, [], []) == content
  {
    PassAfterRuns(content, [], [], 0, 0, |content|);
    Seqs.SliceAll(content, 0);
  }
}
