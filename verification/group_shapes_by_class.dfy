/**
 The plugin entry point `exports.fn` (groupShapesByClass.js, lines 37-108),
 applied to one parent element: the applicability guard, the scan of the
 children's class texts, and the replacement of each recorded run by a `g`
 wrapper that carries the run's class.
 */
module GroupShapesByClass {
  import ClassList
  import opened Nodes
  import opened RunDetection
  import opened SinglePass
  import opened RunReplacement

  /**
   The guard of line 44: the item is an element, not a `switch`, not empty,
   and has at least two children.
   */
  predicate Applicable(item: Node) {
    && item.Element?
    && item.name != "switch"
    && |item.content| != 0
    && |item.content| >= 2
  }

  /** Every child carries a class list (the scan reads the class of each child). */
  predicate AllElements(content: seq<Node>) {
    forall j :: 0 <= j < |content| ==> content[j].Element?
  }

  /** Every child's class list is well formed. */
  predicate WellFormedClasses(content: seq<Node>)
    requires AllElements(content)
  {
    forall j :: 0 <= j < |content| ==> ClassList.Valid(content[j].classes)
  }

  /** The class attribute texts of the children, in order. */
  function ClassValues(content: seq<Node>): (vs: seq<string>)
    requires AllElements(content)
    ensures |vs| == |content|
  {
    seq(|content|, j requires 0 <= j < |content| => ClassValue(content[j]))
  }

  /** The children's runs, as the scan records them. */
  function Runs(content: seq<Node>): (m: seq<Entry>)
    requires AllElements(content)
    ensures Layout(m, |content|)
  {
    Detect(ClassValues(content))
  }

  /** The new child list: the single-pass rebuild around the recorded runs. */
  function Grouped(content: seq<Node>): seq<Node>
    requires AllElements(content)
  {
    OnePass(content, Runs(content))
  }

  /**
   `exports.fn(item)`: leaves an item the guard rejects as it is; otherwise
   scans the children and replaces every recorded run, in map order, with
   its wrapper through the offset-tracked splice. The children end up as the
   single-pass rebuild; everything else about the item is kept.
   */
  method Apply(item: Node) returns (result: Node)
    requires Applicable(item) ==> AllElements(item.content)
    ensures !Applicable(item) ==> result == item
    ensures Applicable(item) ==> result == item.(content := Grouped(item.content))
  {
    if !item.Element? || item.name == "switch" || |item.content| == 0 || |item.content| < 2 {
      return item;
    }
    var entries := Runs(item.content);
    var content := ReplaceRuns(item.content, entries);
    result := item.(content := content);
  }

  /**
   Who qualifies: with well-formed class lists, child `i` extends a run with
   the child before it exactly when both carry the same class list and that
   list holds one class name. Children without a class or with several
   classes never start or extend a run.
   */
  lemma QualifiesIffSingleSharedName(content: seq<Node>, i: nat)
    requires AllElements(content) && WellFormedClasses(content)
    ensures Qualifies(ClassValues(content), i)
        <==> 0 < i < |content| && |content[i].classes| == 1 && content[i - 1].classes == content[i].classes
  {
    if 0 < i < |content| {
      var vs := ClassValues(content);
      var prev, cur := content[i - 1].classes, content[i].classes;
      assert vs[i - 1] == ClassList.Value(prev) && vs[i] == ClassList.Value(cur);
      ClassList.SingleNameValue(prev);
      ClassList.SingleNameValue(cur);
      if vs[i - 1] == vs[i] {
        ClassList.ValueInjective(prev, cur);
      }
    }
  }

  /**
   Nothing else changes, and order is kept: in the new child list, a child
   outside every recorded run appears unchanged, the first member of run `a`
   is replaced by run `a`'s wrapper, each at the number of entries the
   children before it produced.
   */
  lemma ChildPlacement(content: seq<Node>, j: nat)
    requires AllElements(content) && j < |content|
    ensures var m := Runs(content);
      var whole, at := Grouped(content), |Pass(content, Groups(content, m), m, |m|, j)|;
      && ((forall a :: 0 <= a < |m| ==> !(Start(m[a]) <= j <= End(m[a]))) ==> at < |whole| && whole[at] == content[j])
      && (forall a :: 0 <= a < |m| && j == Start(m[a]) ==> at < |whole| && whole[at] == Groups(content, m)[a])
  {
    var m := Runs(content);
    LayoutSpans(m, |content|);
    var groups := Groups(content, m);
    Placement(content, groups, m, |m|, j);
    RoleInCases(m, |m|, j);
    forall a | 0 <= a < |m| && j == Start(m[a])
      ensures RoleIn(m, |m|, j) == Open(a)
    {
      RoleInLayout(m, |content|, |m|, a, j);
    }
  }

  /** A member of a recorded run carries that run's one class name, and stripping it leaves no class. */
  lemma MemberLosesClass(content: seq<Node>, a: nat, i: nat)
    requires AllElements(content)
    requires a < |Runs(content)| && i < |Runs(content)[a].indexes|
    ensures Runs(content)[a].indexes[i] < |content|
    ensures Strip(content[Runs(content)[a].indexes[i]], Runs(content)[a].className).classes == []
  {
    var vs := ClassValues(content);
    var m := Runs(content);
    var e := m[a];
    assert RunOf(vs, |vs|, e);
    var j := e.indexes[i];
    MembersCarryClass(vs, |vs|, e, j);
    MembersCarryClass(vs, |vs|, e, Start(e));
    assert Qualifies(vs, Start(e) + 1);
    var cs := content[j].classes;
    assert vs[j] == ClassList.Value(cs);
    ClassList.OneNameValue(cs);
    assert cs == [e.className];
  }

  /** The members of a wrapper the plugin created carry no class at all. */
  lemma WrapperMembersClassless(content: seq<Node>, a: nat)
    requires AllElements(content)
    requires a < |Runs(content)|
    ensures var w := Groups(content, Runs(content))[a];
      forall i :: 0 <= i < |w.content| ==> w.content[i].Element? && w.content[i].classes == []
  {
    var m := Runs(content);
    var members := Groups(content, m)[a].content;
    IndexesInRange(m, |content|, a);
    assert members == Members(content, m[a]);
    forall i | 0 <= i < |members|
      ensures members[i].Element? && members[i].classes == []
    {
      MemberLosesClass(content, a, i);
    }
  }

  /** Children that carry no class never qualify, so the plugin leaves them as they are. */
  lemma ClasslessUntouched(content: seq<Node>)
    requires forall i :: 0 <= i < |content| ==> content[i].Element? && content[i].classes == []
    ensures AllElements(content) && Grouped(content) == content
  {
    var vs := ClassValues(content);
    forall j | 0 <= j < |vs|
      ensures !Qualifies(vs, j)
    {
      assert vs[j] == ClassList.Value(content[j].classes);
    }
    NoRunsIffNoPairs(vs);
    assert Groups(content, []) == [];
    NoRunsCopies(content);
  }

  /**
   A child that carries no class lies outside every recorded run, whatever
   its siblings carry: a run's members all carry its class text, which is
   non-empty.
   */
  lemma ClasslessOutsideRuns(content: seq<Node>, j: nat)
    requires AllElements(content) && j < |content| && content[j].classes == []
    ensures forall a :: 0 <= a < |Runs(content)| ==> !(Start(Runs(content)[a]) <= j <= End(Runs(content)[a]))
  {
    var vs := ClassValues(content);
    var m := Runs(content);
    assert vs[j] == ClassList.Value(content[j].classes) == "";
    forall a | 0 <= a < |m|
      ensures Start(m[a]) <= j <= End(m[a]) ==> |vs[j]| > 0
    {
      var e := m[a];
      assert RunOf(vs, |vs|, e);
      MembersCarryClass(vs, |vs|, e, Start(e));
      assert Qualifies(vs, Start(e) + 1);
      var c := vs[j];
      assert Start(e) < j <= End(e) ==> Qualifies(vs, j) && c == e.className;
    }
  }

  /**
   Running the plugin again on a wrapper it created changes nothing: its
   members have lost their only class, so no pair among them qualifies.
   */
  lemma WrapperIsStable(content: seq<Node>, a: nat)
    requires AllElements(content)
    requires a < |Runs(content)|
    ensures var w := Groups(content, Runs(content))[a];
      AllElements(w.content) && Grouped(w.content) == w.content
  {
    WrapperMembersClassless(content, a);
    ClasslessUntouched(Groups(content, Runs(content))[a].content);
  }
}
