/** The scan for the first braced block of a model's output. Quotes are not treated specially, as in the
    source. */
module BraceScan {
  import opened Base

  /** Opening braces minus closing ones. */
  function Depth(s: string): int {
    if s == "" then 0
    else Depth(s[..|s| - 1]) + (if s[|s| - 1] == '{' then 1 else if s[|s| - 1] == '}' then -1 else 0)
  }

  /** A block is balanced and no earlier prefix of it is. */
  ghost predicate IsBlock(b: string) {
    b != "" && Depth(b) == 0 && forall k :: 0 < k < |b| ==> Depth(b[..k]) > 0
  }

  /** Where the first opening brace is, or the length. */
  function FirstOpen(text: string, from: nat): (i: nat)
    requires from <= |text|
    ensures from <= i <= |text| && (i < |text| ==> text[i] == '{')
    ensures forall j :: from <= j < i ==> text[j] != '{'
    decreases |text| - from
  {
    if from == |text| || text[from] == '{' then from else FirstOpen(text, from + 1)
  }

  lemma NoDepth()
    ensures Depth("") == 0
  {
  }

  lemma DepthNext(text: string, start: nat, i: nat)
    requires start <= i < |text|
    ensures Depth(text[start..i + 1]) == Depth(text[start..i]) + (if text[i] == '{' then 1 else if text[i] == '}' then -1 else 0)
  {
    assert text[start..i + 1][..i - start] == text[start..i];
  }

  /** A block ends where the depth is 0 for the first time. */
  lemma BlockEnds(text: string, start: nat, end: nat)
    requires start < end <= |text| && Depth(text[start..end]) == 0
    requires forall e :: start < e < end ==> Depth(text[start..e]) > 0
    ensures IsBlock(text[start..end])
  {
    hide Depth;
    var b := text[start..end];
    assert forall k :: 0 < k < |b| ==> b[..k] == text[start..start + k];
  }

  lemma NoBlockYet(text: string, start: nat, end: nat)
    requires start <= end <= |text| && forall e :: start < e <= end ==> Depth(text[start..e]) > 0
    ensures forall e :: start <= e <= end ==> !IsBlock(text[start..e])
  {
    hide Depth;
  }

  /** The end of the block that starts at `start`, or None when none does. */
  method FindEnd(text: string, start: nat) returns (end: Option<nat>)
    requires start < |text| && text[start] == '{'
    ensures end.Some? ==> start < end.value <= |text| && IsBlock(text[start..end.value])
    ensures end.None? ==> forall e :: start <= e <= |text| ==> !IsBlock(text[start..e])
  {
    hide Depth, IsBlock;
    var depth := 0;
    assert text[start..start] == "";
    NoDepth();
    for i := start to |text|
      invariant depth == Depth(text[start..i])
      invariant forall e :: start < e <= i ==> Depth(text[start..e]) > 0
    {
      DepthNext(text, start, i);
      if text[i] == '{' {
        depth := depth + 1;
      } else if text[i] == '}' {
        depth := depth - 1;
        if depth == 0 {
          BlockEnds(text, start, i + 1);
          return Some(i + 1);
        }
      }
    }
    NoBlockYet(text, start, |text|);
    return None;
  }

  /** The block that starts at the first opening brace; None exactly when there is no such brace or no block
      starts there. */
  method FindBlock(text: string) returns (block: Option<string>)
    ensures var start := FirstOpen(text, 0);
            match block
            case Some(b) => start + |b| <= |text| && b == text[start..start + |b|] && IsBlock(b)
            case None => forall e :: start <= e <= |text| ==> !IsBlock(text[start..e])
  {
    var start := 0;
    while start < |text| && text[start] != '{'
      invariant start <= |text| && FirstOpen(text, 0) == FirstOpen(text, start)
    {
      start := start + 1;
    }
    if start == |text| {
      return None;
    }
    var end := FindEnd(text, start);
    if end.Some? {
      block := Some(text[start..end.value]);
    } else {
      block := None;
    }
  }

  /** No block is a proper prefix of another, so the block found is the only one that starts there. */
  lemma BlockUnique(a: string, b: string)
    requires IsBlock(a) && IsBlock(b) && a <= b
    ensures a == b
  {
    assert b[..|a|] == a;
  }

  /** The text between two matching braces. */
  datatype Body = Done | Plain(c: char, rest: Body) | Nested(inner: Body, rest: Body)

  predicate WellFormed(body: Body) {
    match body
    case Done => true
    case Plain(c, rest) => c != '{' && c != '}' && WellFormed(rest)
    case Nested(inner, rest) => WellFormed(inner) && WellFormed(rest)
  }

  function Braced(s: string): string {
    "{" + s + "}"
  }

  function Render(body: Body): string {
    match body
    case Done => ""
    case Plain(c, rest) => [c] + Render(rest)
    case Nested(inner, rest) => Braced(Render(inner)) + Render(rest)
  }

  ghost predicate Balanced(s: string) {
    Depth(s) == 0 && forall k :: 0 <= k <= |s| ==> Depth(s[..k]) >= 0
  }

  lemma {:induction false} DepthConcat(a: string, b: string)
    ensures Depth(a + b) == Depth(a) + Depth(b)
  {
    if b == "" {
      assert a + b == a;
    } else {
      assert (a + b)[..|a + b| - 1] == a + b[..|b| - 1];
      DepthConcat(a, b[..|b| - 1]);
    }
  }

  lemma BalancedConcat(a: string, b: string)
    requires Balanced(a) && Balanced(b)
    ensures Balanced(a + b)
  {
    DepthConcat(a, b);
    forall k | 0 <= k <= |a + b| ensures Depth((a + b)[..k]) >= 0 {
      if k <= |a| {
        assert (a + b)[..k] == a[..k];
      } else {
        assert (a + b)[..k] == a + b[..k - |a|];
        DepthConcat(a, b[..k - |a|]);
      }
    }
  }

  /** What stands between braces raises every depth by one, so the braced text is a block. */
  lemma BracedIsBlock(a: string)
    requires Balanced(a)
    ensures IsBlock(Braced(a)) && Balanced(Braced(a))
  {
    var s := Braced(a);
    assert Depth("{") == 1 && Depth("}") == -1 && s == ("{" + a) + "}";
    DepthConcat("{", a);
    DepthConcat("{" + a, "}");
    forall k | 0 < k < |s| ensures Depth(s[..k]) > 0 {
      assert s[..k] == "{" + a[..k - 1];
      DepthConcat("{", a[..k - 1]);
    }
    forall k | 0 <= k <= |s| ensures Depth(s[..k]) >= 0 {
      if k == |s| {
        assert s[..k] == s;
      } else if k == 0 {
        assert s[..k] == "";
      }
    }
  }

  lemma {:induction false} RenderBalanced(body: Body)
    requires WellFormed(body)
    ensures Balanced(Render(body))
  {
    match body
    case Done =>
    case Plain(c, rest) =>
      RenderBalanced(rest);
      assert [c][..0] == "" && [c][..1] == [c] && Depth([c]) == 0;
      BalancedConcat([c], Render(rest));
    case Nested(inner, rest) =>
      RenderBalanced(inner);
      RenderBalanced(rest);
      BracedIsBlock(Render(inner));
      BalancedConcat(Braced(Render(inner)), Render(rest));
  }

  /** What follows a balanced prefix of a balanced text is balanced. */
  lemma BalancedRest(a: string, b: string)
    requires Balanced(a + b) && Depth(a) == 0
    ensures Balanced(b)
  {
    DepthConcat(a, b);
    forall k | 0 <= k <= |b| ensures Depth(b[..k]) >= 0 {
      assert (a + b)[..|a| + k] == a + b[..k];
      DepthConcat(a, b[..k]);
    }
  }

  /** The inside of a block is balanced. */
  lemma BlockInside(b: string)
    requires IsBlock(b) && b[0] == '{'
    ensures |b| >= 2 && b == Braced(b[1..|b| - 1]) && Balanced(b[1..|b| - 1])
  {
    assert b[..1] == "{" && Depth("{") == 1;
    assert b[..|b|] == b;
    var a := b[1..|b| - 1];
    assert b[..|b| - 1] == "{" + a;
    DepthConcat("{", a);
    forall k | 0 <= k <= |a| ensures Depth(a[..k]) >= 0 {
      assert b[..k + 1] == "{" + a[..k];
      DepthConcat("{", a[..k]);
    }
    assert a[..|a|] == a;
  }

  /** The length of the block that a balanced text starting with a brace starts with. */
  lemma FirstBlock(s: string, e: nat) returns (end: nat)
    requires Balanced(s) && s != "" && s[0] == '{'
    requires 0 < e <= |s| && forall k :: 0 < k < e ==> Depth(s[..k]) > 0
    ensures 0 < end <= |s| && IsBlock(s[..end])
    decreases |s| - e
  {
    if Depth(s[..e]) == 0 {
      end := e;
      assert forall k :: 0 < k < e ==> s[..e][..k] == s[..k];
    } else {
      assert s[..|s|] == s;
      end := FirstBlock(s, e + 1);
    }
  }

  lemma FirstBrace(s: string)
    requires s != ""
    ensures Depth(s[..1]) == if s[0] == '{' then 1 else if s[0] == '}' then -1 else 0
  {
    assert s[..1][..0] == "" && s[..1][0] == s[0];
  }

  /** A balanced text that starts with a brace is a braced balanced text and a balanced rest. */
  lemma SplitNested(s: string) returns (inner: string, rest: string)
    requires Balanced(s) && s != "" && s[0] == '{'
    ensures s == Braced(inner) + rest && Balanced(inner) && Balanced(rest)
  {
    hide Depth;
    FirstBrace(s);
    var e := FirstBlock(s, 1);
    inner, rest := s[..e][1..e - 1], s[e..];
    BlockInside(s[..e]);
    assert s == s[..e] + rest;
    BalancedRest(s[..e], rest);
  }

  /** A balanced text that does not start with an opening brace starts with no brace at all. */
  lemma SplitPlain(s: string)
    requires Balanced(s) && s != "" && s[0] != '{'
    ensures s[0] != '}' && Balanced(s[1..]) && s == [s[0]] + s[1..]
  {
    hide Depth;
    FirstBrace(s);
    assert s == s[..1] + s[1..];
    assert Depth(s[..1]) >= 0;
    BalancedRest(s[..1], s[1..]);
  }

  lemma {:induction false} Parse(s: string) returns (body: Body)
    requires Balanced(s)
    ensures WellFormed(body) && Render(body) == s
    decreases |s|
  {
    hide Balanced;
    if s == "" {
      body := Done;
    } else if s[0] == '{' {
      var inner, rest := SplitNested(s);
      var within := Parse(inner);
      var after := Parse(rest);
      body := Nested(within, after);
    } else {
      SplitPlain(s);
      var after := Parse(s[1..]);
      body := Plain(s[0], after);
    }
  }

  /** The counted blocks that start with a brace are exactly the properly nested ones. */
  lemma BlocksAreNested(b: string)
    requires b != "" && b[0] == '{'
    ensures IsBlock(b) <==> exists body :: WellFormed(body) && b == Braced(Render(body))
  {
    if IsBlock(b) {
      BlockInside(b);
      var body := Parse(b[1..|b| - 1]);
      assert WellFormed(body) && b == Braced(Render(body));
    }
    forall body | WellFormed(body) && b == Braced(Render(body)) ensures IsBlock(b) {
      RenderBalanced(body);
      BracedIsBlock(Render(body));
    }
  }
}
