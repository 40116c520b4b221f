/** The curly-brace checker user program: is_valid_sequence accepts a string exactly when it
    consists of '{' and '}' only and every '}' closes an earlier '{', using a 100-entry
    character stack. */
module BraceCheck {
  import opened CLang

  const StackSize: nat := 100

  /** The number of '{' in s minus the number of '}'. */
  function Depth(s: string): int {
    if s == [] then 0
    else Depth(s[..|s| - 1]) + (if s[|s| - 1] == '{' then 1 else if s[|s| - 1] == '}' then -1 else 0)
  }

  /** A string the checker has not rejected yet: only braces, and no prefix closes more than
      it opens. */
  predicate Accepted(s: string) {
    (forall k :: 0 <= k < |s| ==> s[k] == '{' || s[k] == '}') &&
    (forall k :: 0 <= k <= |s| ==> Depth(s[..k]) >= 0)
  }

  /** Balanced braces: accepted, with as many '}' as '{'. */
  predicate Balanced(s: string) {
    Accepted(s) && Depth(s) == 0
  }

  /** Whether the scan would push a 101st '{' before rejecting s: the stack array would
      overflow. */
  predicate Overflows(s: string) {
    exists k :: 0 < k <= |s| && Accepted(s[..k]) && Depth(s[..k]) > StackSize
  }

  lemma AcceptedPrefix(s: string, k: nat)
    requires Accepted(s) && k <= |s|
    ensures Accepted(s[..k])
  {
    forall j | 0 <= j <= k
      ensures Depth(s[..k][..j]) >= 0
    {
      assert s[..k][..j] == s[..j];
    }
  }

  lemma DepthStep(s: string, i: nat)
    requires i < |s|
    ensures Depth(s[..i + 1]) == Depth(s[..i]) + (if s[i] == '{' then 1 else if s[i] == '}' then -1 else 0)
  {
    assert s[..i + 1][..i] == s[..i];
  }

  /** Reading one more character keeps a string accepted exactly when it is a '{', or a '}'
      with an open '{' to close. */
  lemma AcceptedStep(s: string, i: nat)
    requires i < |s| && Accepted(s[..i])
    ensures Accepted(s[..i + 1]) <==> s[i] == '{' || (s[i] == '}' && Depth(s[..i]) > 0)
  {
    DepthStep(s, i);
    var t := s[..i + 1];
    assert t[..i] == s[..i];
    if s[i] == '{' || (s[i] == '}' && Depth(s[..i]) > 0) {
      forall j | 0 <= j <= i + 1
        ensures Depth(t[..j]) >= 0
      {
        if j <= i {
          assert t[..j] == s[..i][..j];
        } else {
          assert t[..j] == t;
        }
      }
    } else if s[i] == '}' {
      assert t[..i + 1] == t;
    } else {
      assert t[i] == s[i];
    }
  }

  /** Without an overflow, an accepted prefix is never deeper than the stack. */
  lemma DepthFitsStack(s: string, i: nat)
    requires i <= |s| && !Overflows(s) && Accepted(s[..i])
    ensures Depth(s[..i]) <= StackSize
  {
  }

  /** is_valid_sequence: 1 for balanced braces, 0 otherwise. */
  method IsValidSequence(s: CString) returns (r: int)
    requires !Overflows(s)
    ensures r == 1 <==> Balanced(s)
    ensures r == 0 || r == 1
  {
    var stack := new char[StackSize];
    var top := -1;
    var i := 0;
    while i < |s|
      invariant 0 <= i <= |s|
      invariant Accepted(s[..i]) && top == Depth(s[..i]) - 1
      invariant -1 <= top < StackSize
      invariant forall k :: 0 <= k <= top ==> stack[k] == '{'
    {
      DepthStep(s, i);
      AcceptedStep(s, i);
      if s[i] == '{' {
        DepthFitsStack(s, i + 1);
        top := top + 1;
        stack[top] := '{';
      } else if top > -1 && stack[top] == '{' && s[i] == '}' {
        top := top - 1;
      } else {
        NotAcceptedExtends(s, i + 1);
        return 0;
      }
      i := i + 1;
    }
    assert s[..i] == s;
    if top == -1 {
      r := 1;
    } else {
      r := 0;
    }
  }

  lemma NotAcceptedExtends(s: string, k: nat)
    requires k <= |s| && !Accepted(s[..k])
    ensures !Accepted(s)
  {
    if Accepted(s) {
      AcceptedPrefix(s, k);
    }
  }

  /** Any character other than a brace makes the string unbalanced. */
  lemma OtherCharacterRejected(s: string, k: nat)
    requires k < |s| && s[k] != '{' && s[k] != '}'
    ensures !Balanced(s)
  {
  }

  /** A '}' that finds every earlier '{' closed makes the string unbalanced. */
  lemma UnmatchedCloseRejected(s: string, k: nat)
    requires k < |s| && s[k] == '}' && Depth(s[..k]) == 0
    ensures !Balanced(s)
  {
    DepthStep(s, k);
  }

  lemma EmptyIsBalanced()
    ensures Balanced("")
  {
  }

  /** The depth of a concatenation is the sum of the depths. */
  lemma {:induction false} DepthConcat(a: string, b: string)
    ensures Depth(a + b) == Depth(a) + Depth(b)
    decreases |b|
  {
    if b != [] {
      var n := |b|;
      assert (a + b)[..|a + b| - 1] == a + b[..n - 1];
      DepthConcat(a, b[..n - 1]);
    } else {
      assert a + b == a;
    }
  }

  /** Wrapping a balanced string in a pair of braces keeps it balanced. */
  lemma NestedPairsBalanced(s: string)
    requires Balanced(s)
    ensures Balanced("{" + s + "}")
  {
    var t := "{" + s + "}";
    forall k | 0 <= k <= |t|
      ensures Depth(t[..k]) >= 0
    {
      if k == |t| {
        assert t[..k] == t;
        DepthConcat("{", s);
        DepthConcat("{" + s, "}");
      } else if k > 0 {
        assert t[..k] == "{" + s[..k - 1];
        DepthConcat("{", s[..k - 1]);
      }
    }
    DepthConcat("{", s);
    DepthConcat("{" + s, "}");
  }

  /** Two balanced strings one after the other are balanced. */
  lemma BalancedConcat(a: string, b: string)
    requires Balanced(a) && Balanced(b)
    ensures Balanced(a + b)
  {
    var t := a + b;
    forall k | 0 <= k <= |t|
      ensures Depth(t[..k]) >= 0
    {
      if k <= |a| {
        assert t[..k] == a[..k];
      } else {
        assert t[..k] == a + b[..k - |a|];
        DepthConcat(a, b[..k - |a|]);
      }
    }
    assert t[..|t|] == t;
    DepthConcat(a, b);
  }
}
