/**
 A node's class attribute as the grouping plugin sees it: an insertion-ordered
 set of class names. The attribute text is the names joined with single
 spaces, and parsing it back splits on those spaces.
 */
module ClassList {

  /** A class name: non-empty and free of the space that separates names. */
  predicate IsToken(t: string) {
    |t| > 0 && ' ' !in t
  }

  /** A well-formed class list: every entry a class name, no name twice. */
  predicate Valid(tokens: seq<string>) {
    && (forall k :: 0 <= k < |tokens| ==> IsToken(tokens[k]))
    && (forall k, l :: 0 <= k < l < |tokens| ==> tokens[k] != tokens[l])
  }

  /** The attribute text of a class list (`getClassValue()`): the names joined by single spaces. */
  function Value(tokens: seq<string>): string
  {
    if |tokens| == 0 then ""
    else if |tokens| == 1 then tokens[0]
    else tokens[0] + " " + Value(tokens[1..])
  }

  /** Position of the first space in `s`, or `|s|` when there is none. */
  function IndexOfSpace(s: string): (k: nat)
    ensures k <= |s|
    ensures k < |s| ==> s[k] == ' '
    ensures forall j :: 0 <= j < k ==> s[j] != ' '
  {
    if |s| == 0 then 0
    else if s[0] == ' ' then 0
    else 1 + IndexOfSpace(s[1..])
  }

  /** Parses attribute text back into class names, cutting at each space. */
  function Split(s: string): seq<string>
    decreases |s|
  {
    if |s| == 0 then []
    else
      var k := IndexOfSpace(s);
      if k == |s| then [s] else [s[..k]] + Split(s[k + 1..])
  }

  /** The tail of a well-formed list is well-formed. */
  lemma ValidTail(tokens: seq<string>)
    requires Valid(tokens) && |tokens| > 0
    ensures Valid(tokens[1..])
  {
    var rest := tokens[1..];
    forall k, l | 0 <= k < l < |rest|
      ensures rest[k] != rest[l]
    {
      assert rest[k] == tokens[k + 1] && rest[l] == tokens[l + 1];
    }
  }

  /** Splitting a name, a space and more text cuts at that space. */
  lemma SplitCons(t: string, v: string)
    requires IsToken(t)
    ensures Split(t + " " + v) == [t] + Split(v)
  {
    var w := t + " " + v;
    assert w[|t|] == ' ';
    forall j | 0 <= j < |t|
      ensures w[j] != ' '
    {
      assert w[j] == t[j];
    }
    assert IndexOfSpace(w) == |t|;
    assert w[..|t|] == t;
    assert w[|t| + 1..] == v;
  }

  /** Parsing the attribute text of a well-formed list gives the list back. */
  lemma {:induction false} SplitValue(tokens: seq<string>)
    requires Valid(tokens)
    ensures Split(Value(tokens)) == tokens
    decreases |tokens|
  {
    if |tokens| == 1 {
      assert IsToken(tokens[0]);
      assert IndexOfSpace(tokens[0]) == |tokens[0]|;
    } else if |tokens| > 1 {
      ValidTail(tokens);
      SplitValue(tokens[1..]);
      assert IsToken(tokens[0]);
      SplitCons(tokens[0], Value(tokens[1..]));
      assert [tokens[0]] + tokens[1..] == tokens;
    }
  }

  /** Two well-formed lists with the same attribute text are the same list. */
  lemma ValueInjective(a: seq<string>, b: seq<string>)
    requires Valid(a) && Valid(b)
    requires Value(a) == Value(b)
    ensures a == b
  {
    SplitValue(a);
    SplitValue(b);
  }

  /**
   Any list whose attribute text is non-empty and space-free holds exactly
   one entry: two or more entries put a space into the text.
   */
  lemma OneNameValue(tokens: seq<string>)
    ensures |Value(tokens)| > 0 && ' ' !in Value(tokens) ==> |tokens| == 1
  {
    if |tokens| >= 2 {
      var v := Value(tokens);
      assert v == tokens[0] + " " + Value(tokens[1..]);
      assert v[|tokens[0]|] == ' ';
    }
  }

  /**
   The attribute text of a well-formed list is non-empty and space-free
   exactly when the list holds a single class name.
   */
  lemma SingleNameValue(tokens: seq<string>)
    requires Valid(tokens)
    ensures (|Value(tokens)| > 0 && ' ' !in Value(tokens)) <==> |tokens| == 1
  {
    OneNameValue(tokens);
    if |tokens| == 1 {
      assert IsToken(tokens[0]);
    }
  }

  /** `remove(name)`: drops `t` and keeps every other name; `RemoveKeepsOrder` gives their order. */
  function Remove(tokens: seq<string>, t: string): (r: seq<string>)
    ensures t !in r
    ensures forall x :: x in r <==> x in tokens && x != t
    ensures t !in tokens ==> r == tokens
    ensures Valid(tokens) ==> Valid(r)
    ensures Valid(tokens) && t in tokens ==> |r| == |tokens| - 1
  {
    if |tokens| == 0 then []
    else
      var rest := Remove(tokens[1..], t);
      assert Valid(tokens) ==> Valid(tokens[1..]) by {
        if Valid(tokens) {
          forall k, l | 0 <= k < l < |tokens[1..]|
            ensures tokens[1..][k] != tokens[1..][l]
          {
            assert tokens[1..][k] == tokens[k + 1] && tokens[1..][l] == tokens[l + 1];
          }
        }
      }
      assert Valid(tokens) ==> tokens[0] !in tokens[1..] by {
        if Valid(tokens) {
          forall l | 0 <= l < |tokens[1..]|
            ensures tokens[1..][l] != tokens[0]
          {
            assert tokens[1..][l] == tokens[l + 1];
          }
        }
      }
      if tokens[0] == t then rest else [tokens[0]] + rest
  }

  /**
   Removing a name that sits at position `k` of a well-formed list keeps
   the names before and after it, in their order.
   */
  lemma {:induction false} RemoveKeepsOrder(tokens: seq<string>, t: string, k: nat)
    requires Valid(tokens) && k < |tokens| && tokens[k] == t
    ensures Remove(tokens, t) == tokens[..k] + tokens[k + 1..]
    decreases k
  {
    var rest := tokens[1..];
    ValidTail(tokens);
    if k == 0 {
      assert t !in rest by {
        forall l | 0 <= l < |rest|
          ensures rest[l] != t
        {
          assert rest[l] == tokens[l + 1];
        }
      }
    } else {
      assert tokens[0] != t;
      RemoveKeepsOrder(rest, t, k - 1);
      assert tokens[..k] == [tokens[0]] + rest[..k - 1];
      assert tokens[k + 1..] == rest[k..];
    }
  }

  /** `add(name)`: appends `t` unless it is already present; the existing names stay in front. */
  function Add(tokens: seq<string>, t: string): (r: seq<string>)
    ensures t in r
    ensures forall x :: x in r <==> x in tokens || x == t
    ensures |r| >= |tokens| && r[..|tokens|] == tokens
    ensures t in tokens ==> r == tokens
    ensures Valid(tokens) && IsToken(t) ==> Valid(r)
  {
    if t in tokens then tokens else tokens + [t]
  }

  /** Adding a name that was absent and removing it again restores the list. */
  lemma RemoveUndoesAdd(tokens: seq<string>, t: string)
    requires t !in tokens
    ensures Remove(Add(tokens, t), t) == tokens
  {
    RemoveLast(tokens, t);
  }

  lemma {:induction false} RemoveLast(tokens: seq<string>, t: string)
    requires t !in tokens
    ensures Remove(tokens + [t], t) == tokens
    decreases |tokens|
  {
    if |tokens| == 0 {
    } else {
      assert (tokens + [t])[1..] == tokens[1..] + [t];
      RemoveLast(tokens[1..], t);
      assert [tokens[0]] + tokens[1..] == tokens;
    }
  }
}
