/**
 The scan of a parent's children (groupShapesByClass.js, lines 49-71). It
 walks the class attribute texts of the children once, left to right, and
 records, for each class name, the indexes of the first run of adjacent
 children that carry that one name. The JavaScript `Map` from class name to
 index list is an insertion-ordered list of entries.
 */
module RunDetection {

  datatype Option<T> = None | Some(value: T)

  /** One entry of the map: a class name and the original child indexes recorded for it. */
  datatype Entry = Entry(className: string, indexes: seq<nat>)

  /** Position of the entry for `c`, as `Map.get` finds it. */
  function Find(m: seq<Entry>, c: string): (r: Option<nat>)
    ensures r.Some? ==> r.value < |m| && m[r.value].className == c
    ensures r.Some? ==> forall a :: 0 <= a < r.value ==> m[a].className != c
    ensures r.None? <==> forall a :: 0 <= a < |m| ==> m[a].className != c
  {
    if |m| == 0 then None
    else if m[0].className == c then Some(0)
    else match Find(m[1..], c)
      case None => None
      case Some(k) => Some(k + 1)
  }

  /** `Map.get`: the index list stored for `c`, if any. */
  function Get(m: seq<Entry>, c: string): (r: Option<seq<nat>>)
    ensures r.Some? <==> Find(m, c).Some?
  {
    match Find(m, c)
    case None => None
    case Some(k) => Some(m[k].indexes)
  }

  /**
   `Map.set`: an existing key keeps its place and takes the new list; a new
   key is appended, so iteration follows first insertion.
   */
  function Put(m: seq<Entry>, c: string, v: seq<nat>): (r: seq<Entry>)
    ensures |r| == if Find(m, c).Some? then |m| else |m| + 1
    ensures forall a :: 0 <= a < |m| ==> r[a].className == m[a].className
    ensures forall a :: 0 <= a < |m| && m[a].className != c ==> r[a] == m[a]
    ensures Get(r, c) == Some(v)
    ensures Find(r, c) == if Find(m, c).Some? then Find(m, c) else Some(|m|)
  {
    match Find(m, c)
    case Some(k) => m[k := Entry(c, v)]
    case None =>
      assert Find(m + [Entry(c, v)], c) == Some(|m|) by {
        var r := m + [Entry(c, v)];
        assert forall a :: 0 <= a < |m| ==> r[a] == m[a];
        assert r[|m|].className == c;
      }
      m + [Entry(c, v)]
  }

  /**
   Whether the child at `i` extends a run with the child before it: there is
   a previous child, its class text is non-empty and equal to this child's,
   and that text holds no space (one class name only).
   */
  predicate Qualifies(values: seq<string>, i: nat) {
    && 0 < i < |values|
    && |values[i - 1]| > 0
    && values[i - 1] == values[i]
    && ' ' !in values[i]
  }

  /** One iteration of the `forEach` over the children, at child `i`. */
  function Step(m: seq<Entry>, values: seq<string>, i: nat): seq<Entry>
    requires i < |values|
  {
    if Qualifies(values, i) then AppendIfNext(OpenIfAbsent(m, values[i], i), values[i], i) else m
  }

  /** A class seen for the first time gets the list `[i - 1]`. */
  function OpenIfAbsent(m: seq<Entry>, c: string, i: nat): (r: seq<Entry>)
    requires i > 0
    ensures Get(r, c).Some?
  {
    if Get(m, c).None? then Put(m, c, [i - 1]) else m
  }

  /** `i` joins the list of `c` only when the list ends at `i - 1`. */
  function AppendIfNext(m: seq<Entry>, c: string, i: nat): seq<Entry>
    requires Get(m, c).Some?
  {
    var ix := Get(m, c).value;
    if |ix| > 0 && ix[|ix| - 1] == i - 1 then Put(m, c, ix + [i]) else m
  }

  /** First and last index of a recorded list. */
  function Start(e: Entry): nat
    requires |e.indexes| > 0
  {
    e.indexes[0]
  }

  function End(e: Entry): nat
    requires |e.indexes| > 0
  {
    e.indexes[|e.indexes| - 1]
  }

  /** At least two indexes, each one more than the one before. */
  predicate Interval(ix: seq<nat>) {
    && |ix| >= 2
    && forall m :: 0 <= m < |ix| ==> ix[m] == ix[0] + m
  }

  /**
   `e` is the first maximal run of its class among the first `n` children:
   an interval of indexes below `n`, each pair inside it qualifying with
   that class, no qualifying pair of that class ending at or before its start,
   and (within the first `n`) not continued by the child after its end.
   */
  predicate RunOf(values: seq<string>, n: nat, e: Entry)
    requires n <= |values|
  {
    && Interval(e.indexes)
    && End(e) < n
    && (forall j {:trigger Qualifies(values, j)} ::
          Start(e) < j <= End(e) ==> Qualifies(values, j) && values[j] == e.className)
    && (forall j {:trigger Qualifies(values, j)} ::
          0 < j <= Start(e) && Qualifies(values, j) ==> values[j] != e.className)
    && (forall j {:trigger Qualifies(values, j)} :: j == End(e) + 1 && j < n ==> !Qualifies(values, j))
  }

  /**
   The map after scanning the first `n` children: every entry is the first
   run of its class, class names are distinct, entries follow each other in
   index order without overlapping, and every qualifying pair seen has an
   entry for its class.
   */
  predicate Table(values: seq<string>, n: nat, m: seq<Entry>) {
    && n <= |values|
    && (forall a :: 0 <= a < |m| ==> RunOf(values, n, m[a]))
    && (forall a, b :: 0 <= a < b < |m| ==> m[a].className != m[b].className)
    && (forall a, b :: 0 <= a < b < |m| ==> End(m[a]) < Start(m[b]))
    && (forall j {:trigger Qualifies(values, j)} ::
          0 < j < n && Qualifies(values, j) ==> Find(m, values[j]).Some?)
  }

  /** The map after the `forEach` has visited the first `n` children. */
  function DetectUpTo(values: seq<string>, n: nat): seq<Entry>
    requires n <= |values|
  {
    if n == 0 then [] else Step(DetectUpTo(values, n - 1), values, n - 1)
  }

  /**
   Recorded runs as the rebuild needs them: each an interval of indexes
   below `n`, each ending before the next one starts.
   */
  predicate Layout(entries: seq<Entry>, n: nat) {
    && (forall a :: 0 <= a < |entries| ==> Interval(entries[a].indexes) && End(entries[a]) < n)
    && (forall a, b :: 0 <= a < b < |entries| ==> End(entries[a]) < Start(entries[b]))
  }

  /** Every run has a first index no later than its last (implied by `Layout`). */
  predicate Spans(entries: seq<Entry>) {
    forall a :: 0 <= a < |entries| ==> |entries[a].indexes| > 0 && Start(entries[a]) <= End(entries[a])
  }

  /** A layout's runs are spans. */
  lemma LayoutSpans(entries: seq<Entry>, n: nat)
    requires Layout(entries, n)
    ensures Spans(entries)
  {
    forall a | 0 <= a < |entries|
      ensures |entries[a].indexes| > 0 && Start(entries[a]) <= End(entries[a])
    {
      assert Interval(entries[a].indexes);
    }
  }

  /** A table's runs have the layout the rebuild needs. */
  lemma TableLayout(values: seq<string>, n: nat, m: seq<Entry>)
    requires Table(values, n, m)
    ensures Layout(m, n)
  {
    forall a | 0 <= a < |m|
      ensures Interval(m[a].indexes) && End(m[a]) < n
    {
      assert RunOf(values, n, m[a]);
    }
  }

  /** Every index of a laid-out run addresses a child. */
  lemma IndexesInRange(entries: seq<Entry>, n: nat, a: nat)
    requires Layout(entries, n) && a < |entries|
    ensures forall i :: 0 <= i < |entries[a].indexes| ==> entries[a].indexes[i] < n
  {
    var ix := entries[a].indexes;
    assert ix[|ix| - 1] == ix[0] + |ix| - 1;
  }

  /**
   The complete scan, `childIndexesToGroup` once the `forEach` is done: a
   table over all children, so its runs are ordered and disjoint.
   */
  function Detect(values: seq<string>): (m: seq<Entry>)
    ensures Table(values, |values|, m)
    ensures Layout(m, |values|)
  {
    DetectUpToTable(values, |values|);
    TableLayout(values, |values|, DetectUpTo(values, |values|));
    DetectUpTo(values, |values|)
  }

  /** The scan keeps the table invariant at every child. */
  lemma {:induction false} DetectUpToTable(values: seq<string>, n: nat)
    requires n <= |values|
    ensures Table(values, n, DetectUpTo(values, n))
  {
    if n > 0 {
      var p := n - 1;
      DetectUpToTable(values, p);
      StepKeepsTable(values, p, DetectUpTo(values, p));
      assert DetectUpTo(values, p + 1) == Step(DetectUpTo(values, p), values, p);
    }
  }

  /** An entry whose classes are the same as another's at every position finds the same keys. */
  lemma SameKeys(m: seq<Entry>, m': seq<Entry>, c: string)
    requires |m| <= |m'|
    requires forall a :: 0 <= a < |m| ==> m'[a].className == m[a].className
    requires Find(m, c).Some?
    ensures Find(m', c).Some?
  {
    var k := Find(m, c).value;
    assert m'[k].className == c;
  }

  /** Every member of a recorded run carries the run's class text. */
  lemma MembersCarryClass(values: seq<string>, n: nat, e: Entry, j: nat)
    requires n <= |values|
    requires RunOf(values, n, e)
    requires j in e.indexes
    ensures Start(e) <= j <= End(e)
    ensures values[j] == e.className
  {
    var ix := e.indexes;
    var p :| 0 <= p < |ix| && ix[p] == j;
    assert ix[|ix| - 1] == ix[0] + |ix| - 1;
    if j == Start(e) {
      assert Qualifies(values, j + 1);
    } else {
      assert Qualifies(values, j);
    }
  }

  /** Visiting child `n` keeps the table invariant. */
  lemma StepKeepsTable(values: seq<string>, n: nat, m: seq<Entry>)
    requires n < |values|
    requires Table(values, n, m)
    ensures Table(values, n + 1, Step(m, values, n))
  {
    if !Qualifies(values, n) {
      StepSkips(values, n, m);
    } else if Find(m, values[n]).None? {
      StepOpensResult(values, n, m);
      StepOpens(values, n, m);
    } else {
      var k := Find(m, values[n]).value;
      var ix := m[k].indexes;
      assert RunOf(values, n, m[k]);
      if ix[|ix| - 1] == n - 1 {
        StepExtendsResult(values, n, m);
        StepExtends(values, n, m);
        assert Step(m, values, n) == Extended(values, n, m, k);
      } else {
        StepIgnoresResult(values, n, m);
        StepIgnores(values, n, m);
      }
    }
  }

  lemma StepOpensResult(values: seq<string>, n: nat, m: seq<Entry>)
    requires n < |values|
    requires Qualifies(values, n)
    requires Find(m, values[n]).None?
    ensures Step(m, values, n) == m + [Entry(values[n], [n - 1, n])]
  {
    var c := values[n];
    var e := Entry(c, [n - 1, n]);
    var m1 := Put(m, c, [n - 1]);
    assert m1 == m + [Entry(c, [n - 1])];
    assert Get(m1, c) == Some([n - 1]);
    assert Find(m1, c) == Some(|m|);
    assert [n - 1] + [n] == [n - 1, n];
    assert Step(m, values, n) == Put(m1, c, [n - 1] + [n]);
    assert m1[|m| := e] == m + [e];
  }

  lemma StepExtendsResult(values: seq<string>, n: nat, m: seq<Entry>)
    requires n < |values|
    requires Qualifies(values, n)
    requires Find(m, values[n]).Some?
    requires var ix := m[Find(m, values[n]).value].indexes; |ix| > 0 && ix[|ix| - 1] == n - 1
    ensures var k := Find(m, values[n]).value;
      Step(m, values, n) == m[k := Entry(values[n], m[k].indexes + [n])]
  {
    var k := Find(m, values[n]).value;
    assert Get(m, values[n]) == Some(m[k].indexes);
  }

  lemma StepIgnoresResult(values: seq<string>, n: nat, m: seq<Entry>)
    requires n < |values|
    requires Qualifies(values, n)
    requires Find(m, values[n]).Some?
    requires var ix := m[Find(m, values[n]).value].indexes; |ix| > 0 && ix[|ix| - 1] != n - 1
    ensures Step(m, values, n) == m
  {
    var c := values[n];
    var ix := m[Find(m, c).value].indexes;
    assert Get(m, c) == Some(ix);
    assert !(|ix| > 0 && ix[|ix| - 1] == n - 1);
  }

  /** A pair that does not qualify leaves the map as it is. */
  lemma StepSkips(values: seq<string>, n: nat, m: seq<Entry>)
    requires n < |values|
    requires Table(values, n, m)
    requires !Qualifies(values, n)
    ensures Table(values, n + 1, Step(m, values, n))
  {
    forall a | 0 <= a < |m|
      ensures RunOf(values, n + 1, m[a])
    {
      RunOfGrows(values, n, m[a]);
    }
    TableGrows(values, n, m);
  }

  /** A run of another class does not end just before a qualifying pair at `n`. */
  lemma NoRunEndsBefore(values: seq<string>, n: nat, e: Entry)
    requires n < |values|
    requires RunOf(values, n, e)
    requires Qualifies(values, n)
    requires e.className != values[n]
    ensures End(e) != n - 1
  {
    MembersCarryClass(values, n, e, End(e));
    assert values[n - 1] == values[n];
    assert values[End(e)] != values[n - 1];
  }

  /** A run that does not end just before child `n` stays a first maximal run once `n` is seen. */
  lemma RunOfGrows(values: seq<string>, n: nat, e: Entry)
    requires n < |values|
    requires RunOf(values, n, e)
    requires Qualifies(values, n) ==> End(e) != n - 1
    ensures RunOf(values, n + 1, e)
  {
  }

  /** A map that is left as it is stays a table once child `n` is seen, given its runs do. */
  lemma TableGrows(values: seq<string>, n: nat, m: seq<Entry>)
    requires n < |values|
    requires Table(values, n, m)
    requires forall a :: 0 <= a < |m| ==> RunOf(values, n + 1, m[a])
    requires Qualifies(values, n) ==> Find(m, values[n]).Some?
    ensures Table(values, n + 1, m)
  {
  }

  /** Distinct entries of a table carry distinct class names. */
  lemma DistinctNames(values: seq<string>, n: nat, m: seq<Entry>, a: nat, b: nat)
    requires Table(values, n, m)
    requires a < |m| && b < |m| && a != b
    ensures m[a].className != m[b].className
  {
    if a > b {
      assert m[b].className != m[a].className;
    }
  }

  /** The first qualifying pair of a class opens a new entry `[n - 1, n]` at the end. */
  lemma StepOpens(values: seq<string>, n: nat, m: seq<Entry>)
    requires n < |values|
    requires Table(values, n, m)
    requires Qualifies(values, n)
    requires Find(m, values[n]).None?
    ensures Table(values, n + 1, m + [Entry(values[n], [n - 1, n])])
  {
    OpenedRuns(values, n, m);
    OpenedOrder(values, n, m);
    OpenedKeys(values, n, m);
  }

  /** No recorded run reaches child `n - 1` when child `n` opens a new class. */
  lemma OpenedAfterRuns(values: seq<string>, n: nat, m: seq<Entry>)
    requires n < |values|
    requires Table(values, n, m)
    requires Qualifies(values, n)
    requires Find(m, values[n]).None?
    ensures forall a :: 0 <= a < |m| ==> End(m[a]) < n - 1
  {
    forall a | 0 <= a < |m|
      ensures End(m[a]) < n - 1
    {
      assert RunOf(values, n, m[a]);
      NoRunEndsBefore(values, n, m[a]);
    }
  }

  lemma OpenedRuns(values: seq<string>, n: nat, m: seq<Entry>)
    requires n < |values|
    requires Table(values, n, m)
    requires Qualifies(values, n)
    requires Find(m, values[n]).None?
    ensures var m' := m + [Entry(values[n], [n - 1, n])];
      forall a :: 0 <= a < |m'| ==> RunOf(values, n + 1, m'[a])
  {
    var c := values[n];
    var e := Entry(c, [n - 1, n]);
    var m' := m + [e];
    OpenedAfterRuns(values, n, m);
    forall a | 0 <= a < |m'|
      ensures RunOf(values, n + 1, m'[a])
    {
      if a < |m| {
        assert m'[a] == m[a];
        assert RunOf(values, n, m[a]);
        RunOfGrows(values, n, m[a]);
      } else {
        assert m'[a] == e;
        forall j | 0 < j <= n - 1 && Qualifies(values, j)
          ensures values[j] != c
        {
          assert Find(m, values[j]).Some?;
        }
      }
    }
  }

  lemma OpenedOrder(values: seq<string>, n: nat, m: seq<Entry>)
    requires n < |values|
    requires Table(values, n, m)
    requires Qualifies(values, n)
    requires Find(m, values[n]).None?
    ensures var m' := m + [Entry(values[n], [n - 1, n])];
      && (forall a, b :: 0 <= a < b < |m'| ==> m'[a].className != m'[b].className)
      && (forall a, b :: 0 <= a < b < |m'| ==> |m'[a].indexes| > 0 && |m'[b].indexes| > 0 && End(m'[a]) < Start(m'[b]))
  {
    var m' := m + [Entry(values[n], [n - 1, n])];
    OpenedAfterRuns(values, n, m);
    assert forall a :: 0 <= a < |m| ==> m'[a] == m[a];
    forall a | 0 <= a < |m|
      ensures |m[a].indexes| > 0
    {
      assert RunOf(values, n, m[a]);
    }
  }

  lemma OpenedKeys(values: seq<string>, n: nat, m: seq<Entry>)
    requires n < |values|
    requires Table(values, n, m)
    requires Qualifies(values, n)
    requires Find(m, values[n]).None?
    ensures var m' := m + [Entry(values[n], [n - 1, n])];
      forall j {:trigger Qualifies(values, j)} ::
        0 < j < n + 1 && Qualifies(values, j) ==> Find(m', values[j]).Some?
  {
    var m' := m + [Entry(values[n], [n - 1, n])];
    forall j | 0 < j < n + 1 && Qualifies(values, j)
      ensures Find(m', values[j]).Some?
    {
      if j < n {
        SameKeys(m, m', values[j]);
      } else {
        assert m'[|m|].className == values[n];
      }
    }
  }

  /** A run ending at `n - 1` followed by a qualifying pair of its class grows by `n`. */
  lemma ExtendedRun(values: seq<string>, n: nat, e: Entry)
    requires n < |values|
    requires RunOf(values, n, e)
    requires Qualifies(values, n) && values[n] == e.className
    requires End(e) == n - 1
    ensures RunOf(values, n + 1, Entry(e.className, e.indexes + [n]))
  {
    var e' := Entry(e.className, e.indexes + [n]);
    assert Interval(e'.indexes);
    assert Start(e') == Start(e) && End(e') == n;
  }

  /** The run that ends at the last child seen is the last entry of the table. */
  lemma EndingRunIsLast(values: seq<string>, n: nat, m: seq<Entry>, k: nat)
    requires Table(values, n, m)
    requires k < |m| && End(m[k]) == n - 1
    ensures k == |m| - 1
  {
    var last := |m| - 1;
    assert RunOf(values, n, m[last]);
    assert k < last ==> End(m[k]) < Start(m[last]);
  }

  /** The map after appending `n` to the run of `values[n]`, at position `k`. */
  function Extended(values: seq<string>, n: nat, m: seq<Entry>, k: nat): seq<Entry>
    requires n < |values| && k < |m|
  {
    m[k := Entry(values[n], m[k].indexes + [n])]
  }

  /** A qualifying pair right after its class's recorded run appends `n` to that run. */
  lemma StepExtends(values: seq<string>, n: nat, m: seq<Entry>)
    requires n < |values|
    requires Table(values, n, m)
    requires Qualifies(values, n)
    requires Find(m, values[n]).Some?
    requires var ix := m[Find(m, values[n]).value].indexes; |ix| > 0 && ix[|ix| - 1] == n - 1
    ensures Table(values, n + 1, Extended(values, n, m, Find(m, values[n]).value))
  {
    var k := Find(m, values[n]).value;
    assert RunOf(values, n, m[k]);
    EndingRunIsLast(values, n, m, k);
    ExtendedRuns(values, n, m, k);
    ExtendedNames(values, n, m, k);
    ExtendedDisjoint(values, n, m, k);
    ExtendedKeys(values, n, m, k);
  }

  lemma ExtendedRuns(values: seq<string>, n: nat, m: seq<Entry>, k: nat)
    requires n < |values|
    requires Table(values, n, m)
    requires Qualifies(values, n)
    requires k < |m| && m[k].className == values[n] && End(m[k]) == n - 1
    ensures var m' := Extended(values, n, m, k);
      forall a :: 0 <= a < |m'| ==> RunOf(values, n + 1, m'[a])
  {
    var m' := Extended(values, n, m, k);
    forall a | 0 <= a < |m'|
      ensures RunOf(values, n + 1, m'[a])
    {
      if a == k {
        ExtendedRun(values, n, m[k]);
      } else {
        assert RunOf(values, n, m[a]);
        DistinctNames(values, n, m, a, k);
        NoRunEndsBefore(values, n, m[a]);
        RunOfGrows(values, n, m[a]);
      }
    }
  }

  /** Extending the last run keeps class names distinct. */
  lemma ExtendedNames(values: seq<string>, n: nat, m: seq<Entry>, k: nat)
    requires n < |values|
    requires Table(values, n, m)
    requires k == |m| - 1 && m[k].className == values[n]
    ensures var m' := Extended(values, n, m, k);
      forall a, b :: 0 <= a < b < |m'| ==> m'[a].className != m'[b].className
  {
    var m' := Extended(values, n, m, k);
    assert forall a :: 0 <= a < |m'| ==> m'[a].className == m[a].className;
  }

  /** Extending the last run keeps the runs in index order without overlap. */
  lemma ExtendedDisjoint(values: seq<string>, n: nat, m: seq<Entry>, k: nat)
    requires n < |values|
    requires Table(values, n, m)
    requires k == |m| - 1 && m[k].className == values[n]
    ensures var m' := Extended(values, n, m, k);
      forall a, b :: 0 <= a < b < |m'| ==> |m'[a].indexes| > 0 && |m'[b].indexes| > 0 && End(m'[a]) < Start(m'[b])
  {
    var m' := Extended(values, n, m, k);
    forall a, b | 0 <= a < b < |m'|
      ensures |m'[a].indexes| > 0 && |m'[b].indexes| > 0 && End(m'[a]) < Start(m'[b])
    {
      assert RunOf(values, n, m[a]) && RunOf(values, n, m[b]);
      assert End(m[a]) < Start(m[b]);
      assert m'[a] == m[a];
      assert Start(m'[b]) == Start(m[b]);
    }
  }

  /** Extending a run keeps an entry for every class with a qualifying pair. */
  lemma ExtendedKeys(values: seq<string>, n: nat, m: seq<Entry>, k: nat)
    requires n < |values|
    requires Table(values, n, m)
    requires Qualifies(values, n)
    requires k < |m| && m[k].className == values[n]
    ensures var m' := Extended(values, n, m, k);
      forall j {:trigger Qualifies(values, j)} ::
        0 < j < n + 1 && Qualifies(values, j) ==> Find(m', values[j]).Some?
  {
    var m' := Extended(values, n, m, k);
    assert forall a :: 0 <= a < |m'| ==> m'[a].className == m[a].className;
    forall j | 0 < j < n + 1 && Qualifies(values, j)
      ensures Find(m', values[j]).Some?
    {
      if j < n {
        SameKeys(m, m', values[j]);
      } else {
        assert m'[k].className == values[j];
      }
    }
  }

  /**
   A qualifying pair of a class whose recorded run ended earlier is not
   recorded: a later run of an already-seen class is dropped.
   */
  lemma StepIgnores(values: seq<string>, n: nat, m: seq<Entry>)
    requires n < |values|
    requires Table(values, n, m)
    requires Qualifies(values, n)
    requires Find(m, values[n]).Some?
    requires var ix := m[Find(m, values[n]).value].indexes; |ix| > 0 && ix[|ix| - 1] != n - 1
    ensures Table(values, n + 1, m)
  {
    var c := values[n];
    var k := Find(m, c).value;
    forall a | 0 <= a < |m|
      ensures RunOf(values, n + 1, m[a])
    {
      assert RunOf(values, n, m[a]);
      if a != k {
        DistinctNames(values, n, m, a, k);
        NoRunEndsBefore(values, n, m[a]);
      }
      RunOfGrows(values, n, m[a]);
    }
    TableGrows(values, n, m);
  }

  /**
   The scan records nothing exactly when no pair of adjacent children
   qualifies.
   */
  lemma NoRunsIffNoPairs(values: seq<string>)
    ensures Detect(values) == [] <==> forall j :: 0 <= j < |values| ==> !Qualifies(values, j)
  {
    var m := Detect(values);
    if m != [] {
      assert RunOf(values, |values|, m[0]);
      assert Qualifies(values, Start(m[0]) + 1);
    }
    forall j | 0 <= j < |values| && Qualifies(values, j)
      ensures m != []
    {
      assert Find(m, values[j]).Some?;
    }
  }

  /**
   Only the first run of a class is grouped: a child carrying the class of
   recorded run `a` is a member of some recorded run exactly when it lies
   between that run's first and last index. A later run of the same class
   is dropped.
   */
  lemma FirstRunOnly(values: seq<string>, a: nat, j: nat)
    requires a < |Detect(values)| && j < |values|
    requires values[j] == Detect(values)[a].className
    ensures (exists b :: 0 <= b < |Detect(values)| && j in Detect(values)[b].indexes)
        <==> Start(Detect(values)[a]) <= j <= End(Detect(values)[a])
  {
    var m := Detect(values);
    var n := |values|;
    assert RunOf(values, n, m[a]);
    var ix := m[a].indexes;
    if Start(m[a]) <= j <= End(m[a]) {
      assert ix[j - ix[0]] == j;
      assert j in m[a].indexes;
    }
    forall b | 0 <= b < |m| && j in m[b].indexes
      ensures Start(m[a]) <= j <= End(m[a])
    {
      assert RunOf(values, n, m[b]);
      MembersCarryClass(values, n, m[b], j);
    }
  }

  /** Two first maximal runs of one class among the same children are the same entry. */
  lemma RunUnique(values: seq<string>, n: nat, e1: Entry, e2: Entry)
    requires n <= |values|
    requires RunOf(values, n, e1) && RunOf(values, n, e2)
    requires e1.className == e2.className
    ensures e1 == e2
  {
    var i1, i2 := e1.indexes, e2.indexes;
    assert Qualifies(values, Start(e1) + 1) && values[Start(e1) + 1] == e1.className;
    assert Qualifies(values, Start(e2) + 1) && values[Start(e2) + 1] == e2.className;
    assert Start(e1) == Start(e2);
    var j1, j2 := End(e1) + 1, End(e2) + 1;
    assert j1 < n ==> !Qualifies(values, j1);
    assert j2 < n ==> !Qualifies(values, j2);
    assert End(e1) == End(e2);
    assert |i1| == |i2|;
    assert i1 == i2 by {
      forall p | 0 <= p < |i1| ensures i1[p] == i2[p] { }
    }
  }

  /** In a layout, first indexes strictly increase. */
  lemma StartsIncrease(m: seq<Entry>, n: nat, a: nat, b: nat)
    requires Layout(m, n) && a <= b < |m|
    ensures Start(m[a]) <= Start(m[b])
    ensures a < b ==> Start(m[a]) < Start(m[b])
  {
    assert Interval(m[a].indexes) && Interval(m[b].indexes);
  }

  /** Dropping the first run keeps a layout. */
  lemma LayoutTail(m: seq<Entry>, n: nat)
    requires Layout(m, n) && |m| > 0
    ensures Layout(m[1..], n)
  {
    var t := m[1..];
    forall a | 0 <= a < |t|
      ensures Interval(t[a].indexes) && End(t[a]) < n
    {
      assert t[a] == m[a + 1];
    }
    forall a, b | 0 <= a < b < |t|
      ensures End(t[a]) < Start(t[b])
    {
      assert t[a] == m[a + 1] && t[b] == m[b + 1];
    }
  }

  /** With the same first entry, a later entry of one list is a later entry of the other. */
  lemma TailMember(m1: seq<Entry>, m2: seq<Entry>, n: nat, y: Entry)
    requires Layout(m1, n) && Layout(m2, n) && |m1| > 0 && |m2| > 0 && m1[0] == m2[0]
    requires forall x :: x in m1 <==> x in m2
    requires y in m1[1..]
    ensures y in m2[1..]
  {
    var i :| 0 <= i < |m1[1..]| && m1[1..][i] == y;
    StartsIncrease(m1, n, 0, i + 1);
    assert y in m2;
    var c :| 0 <= c < |m2| && m2[c] == y;
    assert c != 0;
    assert m2[1..][c - 1] == y;
  }

  /** Two layouts holding the same entries start with the same entry. */
  lemma SameHead(m1: seq<Entry>, m2: seq<Entry>, n: nat)
    requires Layout(m1, n) && Layout(m2, n) && |m1| > 0
    requires forall x :: x in m1 <==> x in m2
    ensures |m2| > 0 && m1[0] == m2[0]
  {
    assert m1[0] in m2;
    var b :| 0 <= b < |m2| && m2[b] == m1[0];
    assert m2[0] in m1;
    var a :| 0 <= a < |m1| && m1[a] == m2[0];
    StartsIncrease(m1, n, 0, a);
    StartsIncrease(m2, n, 0, b);
    assert b == 0;
  }

  /** After a common first entry, the rest of both lists are layouts and hold the same entries. */
  lemma SameTails(m1: seq<Entry>, m2: seq<Entry>, n: nat)
    requires Layout(m1, n) && Layout(m2, n) && |m1| > 0 && |m2| > 0 && m1[0] == m2[0]
    requires forall x :: x in m1 <==> x in m2
    ensures Layout(m1[1..], n) && Layout(m2[1..], n)
    ensures forall y :: y in m1[1..] <==> y in m2[1..]
  {
    forall y | y in m1[1..] ensures y in m2[1..] { TailMember(m1, m2, n, y); }
    forall y | y in m2[1..] ensures y in m1[1..] { TailMember(m2, m1, n, y); }
    LayoutTail(m1, n);
    LayoutTail(m2, n);
  }

  /** Two layouts holding the same entries are the same list. */
  lemma {:induction false} LayoutUnique(m1: seq<Entry>, m2: seq<Entry>, n: nat)
    requires Layout(m1, n) && Layout(m2, n)
    requires forall x :: x in m1 <==> x in m2
    ensures m1 == m2
    decreases |m1|
  {
    assert |m2| > 0 ==> m2[0] in m1;
    if |m1| > 0 {
      SameHead(m1, m2, n);
      SameTails(m1, m2, n);
      var t1, t2 := m1[1..], m2[1..];
      LayoutUnique(t1, t2, n);
      assert m1 == [m1[0]] + t1;
      assert m2 == [m2[0]] + t2;
    }
  }

  /** Every entry of one table over the same children is an entry of any other. */
  lemma EntryIn(values: seq<string>, n: nat, m1: seq<Entry>, m2: seq<Entry>, a: nat)
    requires Table(values, n, m1) && Table(values, n, m2) && a < |m1|
    ensures m1[a] in m2
  {
    var e := m1[a];
    assert RunOf(values, n, e);
    var j := Start(e) + 1;
    assert Qualifies(values, j) && values[j] == e.className;
    var b := Find(m2, values[j]).value;
    assert RunOf(values, n, m2[b]);
    RunUnique(values, n, e, m2[b]);
  }

  /** The table invariant pins the map down: two tables over the same children are equal. */
  lemma TableUnique(values: seq<string>, n: nat, m1: seq<Entry>, m2: seq<Entry>)
    requires Table(values, n, m1) && Table(values, n, m2)
    ensures m1 == m2
  {
    forall x | x in m1 ensures x in m2 {
      var a :| 0 <= a < |m1| && m1[a] == x;
      EntryIn(values, n, m1, m2, a);
    }
    forall x | x in m2 ensures x in m1 {
      var a :| 0 <= a < |m2| && m2[a] == x;
      EntryIn(values, n, m2, m1, a);
    }
    TableLayout(values, n, m1);
    TableLayout(values, n, m2);
    LayoutUnique(m1, m2, n);
  }

  /**
   The scan computes exactly the table: any map meeting the table
   description over all children is the scan's result.
   */
  lemma DetectIsTheTable(values: seq<string>, m: seq<Entry>)
    requires Table(values, |values|, m)
    ensures m == Detect(values)
  {
    TableUnique(values, |values|, m, Detect(values));
  }
}
