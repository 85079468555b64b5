/**
 Worked cases of the plugin on concrete children: the example in the
 plugin's own documentation comment (groupShapesByClass.js, lines 17-30),
 and a parent whose class has two separate runs, where only the first run is
 grouped and a second application groups the other one.
 */
module DocumentedCases {
  import ClassList
  import opened Nodes
  import opened RunDetection
  import opened SinglePass
  import opened RunReplacement
  import opened GroupShapesByClass

  /** A `path` with the given class list and `id`, and no children. */
  function Path(classes: seq<string>, id: string): (n: Node)
    ensures n.Element? && n.name == "path" && n.classes == classes && n.content == []
  {
    Element("path", classes, [Attribute("id", id)], [])
  }

  /** With one run over the first two of five children, the rebuild is its group and the last three. */
  lemma FrontPairRebuild<T>(content: seq<T>, g: T, c: string)
    requires |content| == 5
    ensures Spans([Entry(c, [0, 1])])
    ensures Pass(content, [g], [Entry(c, [0, 1])], 1, 5) == [g] + content[2..]
  {
    var m := [Entry(c, [0, 1])];
    var gs := [g];
    assert Spans(m) by { assert m[0].indexes == [0, 1]; }
    assert RoleIn(m, 1, 0) == Open(0) && RoleIn(m, 1, 1) == Inside(0);
    assert RoleIn(m, 1, 2) == Copy && RoleIn(m, 1, 3) == Copy && RoleIn(m, 1, 4) == Copy;
    assert Pass(content, gs, m, 1, 1) == [g];
    assert Pass(content, gs, m, 1, 2) == [g];
    assert Pass(content, gs, m, 1, 3) == [g, content[2]];
    assert Pass(content, gs, m, 1, 4) == [g, content[2], content[3]];
    assert Pass(content, gs, m, 1, 5) == [g, content[2], content[3], content[4]];
  }

  /** With one run over the last two of four children, the rebuild is the first two and its group. */
  lemma BackPairRebuild<T>(content: seq<T>, g: T, c: string)
    requires |content| == 4
    ensures Spans([Entry(c, [2, 3])])
    ensures Pass(content, [g], [Entry(c, [2, 3])], 1, 4) == content[..2] + [g]
  {
    var m := [Entry(c, [2, 3])];
    var gs := [g];
    assert Spans(m) by { assert m[0].indexes == [2, 3]; }
    assert RoleIn(m, 1, 0) == Copy && RoleIn(m, 1, 1) == Copy;
    assert RoleIn(m, 1, 2) == Open(0) && RoleIn(m, 1, 3) == Inside(0);
    assert Pass(content, gs, m, 1, 1) == [content[0]];
    assert Pass(content, gs, m, 1, 2) == [content[0], content[1]];
    assert Pass(content, gs, m, 1, 3) == [content[0], content[1], g];
    assert Pass(content, gs, m, 1, 4) == [content[0], content[1], g];
  }

  // The documentation example: `first` and `second` share `cls-1` and are
  // grouped; `third` has another class, `fourth` is a lone `cls-1`, and
  // `fifth` carries two classes, so all three pass through untouched.

  const DocBefore: seq<Node> :=
    [Path(["cls-1"], "first"), Path(["cls-1"], "second"), Path(["cls-2"], "third"),
     Path(["cls-1"], "fourth"), Path(["cls-1", "cls-3"], "fifth")]

  const DocGroup: Node := Element("g", ["cls-1"], [], [Path([], "first"), Path([], "second")])

  /** The scan of the example's class texts records one run, `cls-1` over the first two. */
  lemma DocScan()
    ensures Detect(["cls-1", "cls-1", "cls-2", "cls-1", "cls-1 cls-3"]) == [Entry("cls-1", [0, 1])]
  {
    var vs := ["cls-1", "cls-1", "cls-2", "cls-1", "cls-1 cls-3"];
    assert DetectUpTo(vs, 1) == [];
    assert DetectUpTo(vs, 2) == [Entry("cls-1", [0, 1])] by { StepOpensResult(vs, 1, []); }
    assert !Qualifies(vs, 2);
    assert DetectUpTo(vs, 3) == [Entry("cls-1", [0, 1])];
    assert !Qualifies(vs, 3);
    assert DetectUpTo(vs, 4) == [Entry("cls-1", [0, 1])];
    assert !Qualifies(vs, 4);
    assert DetectUpTo(vs, 5) == [Entry("cls-1", [0, 1])];
  }

  lemma DocRuns()
    ensures AllElements(DocBefore) && Runs(DocBefore) == [Entry("cls-1", [0, 1])]
  {
    var vs := ClassValues(DocBefore);
    assert ClassList.Value(["cls-1", "cls-3"]) == "cls-1 cls-3";
    assert vs[0] == "cls-1" && vs[1] == "cls-1" && vs[2] == "cls-2" && vs[3] == "cls-1" && vs[4] == "cls-1 cls-3";
    assert vs == ["cls-1", "cls-1", "cls-2", "cls-1", "cls-1 cls-3"];
    DocScan();
  }

  lemma DocGroups()
    ensures Layout([Entry("cls-1", [0, 1])], |DocBefore|)
    ensures Groups(DocBefore, [Entry("cls-1", [0, 1])]) == [DocGroup]
  {
    var m := [Entry("cls-1", [0, 1])];
    assert Interval(m[0].indexes);
    var members := Members(DocBefore, m[0]);
    assert ClassList.Remove(["cls-1"], "cls-1") == [];
    assert members == [Path([], "first"), Path([], "second")];
    assert Groups(DocBefore, m)[0] == Wrapper("cls-1", members);
  }

  /** The plugin's documented example, as the plugin produces it. */
  lemma DocExample()
    ensures AllElements(DocBefore)
    ensures Grouped(DocBefore) == [DocGroup] + DocBefore[2..]
  {
    DocRuns();
    DocGroups();
    FrontPairRebuild(DocBefore, DocGroup, "cls-1");
  }

  // Two runs of one class: `a a b a a`. Only the first run is recorded, so
  // the second pair stays as it is; applying the plugin again to the result
  // then groups that pair, so one application is not a fixed point.

  const TwoRuns: seq<Node> :=
    [Path(["a"], "first"), Path(["a"], "second"), Path(["b"], "third"),
     Path(["a"], "fourth"), Path(["a"], "fifth")]

  const FirstGroup: Node := Element("g", ["a"], [], [Path([], "first"), Path([], "second")])

  const SecondGroup: Node := Element("g", ["a"], [], [Path([], "fourth"), Path([], "fifth")])

  lemma TwoRunsScan()
    ensures Detect(["a", "a", "b", "a", "a"]) == [Entry("a", [0, 1])]
  {
    var vs := ["a", "a", "b", "a", "a"];
    assert DetectUpTo(vs, 1) == [];
    assert DetectUpTo(vs, 2) == [Entry("a", [0, 1])] by { StepOpensResult(vs, 1, []); }
    assert !Qualifies(vs, 2);
    assert DetectUpTo(vs, 3) == [Entry("a", [0, 1])];
    assert !Qualifies(vs, 3);
    assert DetectUpTo(vs, 4) == [Entry("a", [0, 1])];
    assert Qualifies(vs, 4);
    assert DetectUpTo(vs, 5) == [Entry("a", [0, 1])] by { StepIgnoresResult(vs, 4, [Entry("a", [0, 1])]); }
  }

  lemma RescanAfterFirstRun()
    ensures Detect(["a", "b", "a", "a"]) == [Entry("a", [2, 3])]
  {
    var vs := ["a", "b", "a", "a"];
    assert DetectUpTo(vs, 1) == [];
    assert !Qualifies(vs, 1);
    assert DetectUpTo(vs, 2) == [];
    assert !Qualifies(vs, 2);
    assert DetectUpTo(vs, 3) == [];
    assert DetectUpTo(vs, 4) == [Entry("a", [2, 3])] by { StepOpensResult(vs, 3, []); }
  }

  /** The first application: `a a b a a` becomes the first pair's group, then `b a a`. */
  const Once: seq<Node> := [FirstGroup, Path(["b"], "third"), Path(["a"], "fourth"), Path(["a"], "fifth")]

  lemma TwoRunsRuns()
    ensures AllElements(TwoRuns) && Runs(TwoRuns) == [Entry("a", [0, 1])]
  {
    var vs := ClassValues(TwoRuns);
    assert vs[0] == "a" && vs[1] == "a" && vs[2] == "b" && vs[3] == "a" && vs[4] == "a";
    assert vs == ["a", "a", "b", "a", "a"];
    TwoRunsScan();
  }

  lemma TwoRunsGroups()
    ensures Layout([Entry("a", [0, 1])], |TwoRuns|)
    ensures Groups(TwoRuns, [Entry("a", [0, 1])]) == [FirstGroup]
  {
    var m := [Entry("a", [0, 1])];
    assert Interval(m[0].indexes);
    var members := Members(TwoRuns, m[0]);
    assert ClassList.Remove(["a"], "a") == [];
    assert members == [Path([], "first"), Path([], "second")];
    assert Groups(TwoRuns, m)[0] == Wrapper("a", members);
  }

  lemma TwoRunsFirstPass()
    ensures AllElements(TwoRuns) && Grouped(TwoRuns) == [FirstGroup] + TwoRuns[2..]
  {
    TwoRunsRuns();
    TwoRunsGroups();
    FrontPairRebuild(TwoRuns, FirstGroup, "a");
  }

  lemma OnceKeepsLaterPair()
    ensures [FirstGroup] + TwoRuns[2..] == Once
  {
    assert TwoRuns[2..] == [TwoRuns[2], TwoRuns[3], TwoRuns[4]];
  }

  lemma OnceRuns()
    ensures AllElements(Once) && Runs(Once) == [Entry("a", [2, 3])]
  {
    var vs := ClassValues(Once);
    assert vs[0] == "a" && vs[1] == "b" && vs[2] == "a" && vs[3] == "a";
    assert vs == ["a", "b", "a", "a"];
    RescanAfterFirstRun();
  }

  lemma OnceGroups()
    ensures Layout([Entry("a", [2, 3])], |Once|)
    ensures Groups(Once, [Entry("a", [2, 3])]) == [SecondGroup]
  {
    var m := [Entry("a", [2, 3])];
    assert Interval(m[0].indexes);
    var members := Members(Once, m[0]);
    assert ClassList.Remove(["a"], "a") == [];
    assert members == [Path([], "fourth"), Path([], "fifth")];
    assert Groups(Once, m)[0] == Wrapper("a", members);
  }

  lemma TwoRunsSecondPass()
    ensures AllElements(Once) && Grouped(Once) == [FirstGroup, Once[1], SecondGroup]
  {
    OnceRuns();
    OnceGroups();
    BackPairRebuild(Once, SecondGroup, "a");
    assert Once[..2] + [SecondGroup] == [FirstGroup, Once[1], SecondGroup];
  }

  /**
   On `a a b a a` the plugin groups only the first pair and leaves the
   later pair of the same class as it is; a second application groups that
   pair, so the result of one application is not a fixed point.
   */
  lemma LaterRunNeedsSecondPass()
    ensures AllElements(TwoRuns) && Grouped(TwoRuns) == Once
    ensures Once[2] == TwoRuns[3] && Once[3] == TwoRuns[4]
    ensures AllElements(Once) && Grouped(Once) == [FirstGroup, TwoRuns[2], SecondGroup]
    ensures Grouped(Once) != Once
  {
    TwoRunsFirstPass();
    OnceKeepsLaterPair();
    TwoRunsSecondPass();
  }
}
