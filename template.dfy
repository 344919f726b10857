/** Placeholder resolution (replaceVariables in src/storage.ts): a left fold over the
    variable list; each step replaces every `{{name}}` in the running text by the
    variable's value, scanning left to right without overlap, as a global
    String.replace does. The source builds a regular expression from the name and
    passes the value as a replacement pattern; the model is the literal substitution
    those two agree with when the name has no regular-expression syntax in it and
    the value has no `$`. */
module Template {
  import opened Types

  /** The placeholder a variable is referenced by. */
  function Placeholder(name: string): string {
    "{{" + name + "}}"
  }

  /** `pat` occurs in `s` starting at index `i`. */
  predicate OccursAt(s: string, pat: string, i: nat) {
    i + |pat| <= |s| && s[i..i + |pat|] == pat
  }

  ghost predicate Contains(s: string, pat: string) {
    exists i: nat :: OccursAt(s, pat, i)
  }

  /** No proper prefix of `pat` is also a suffix of it, so two occurrences never overlap. */
  predicate Borderless(pat: string) {
    forall k :: 0 < k < |pat| ==> !BorderAt(pat, k)
  }

  /** The first `k` characters of `pat` are also its last `k`. */
  predicate BorderAt(pat: string, k: nat)
    requires k <= |pat|
  {
    pat[..k] == pat[|pat| - k..]
  }

  /** Characters with a meaning in a JavaScript regular expression pattern. */
  const RegexMetacharacters: string := "\\^$.|?*+()[]{}"

  predicate IsDigit(c: char) {
    '0' <= c <= '9'
  }

  /** A name that would turn `{{name}}` into a braced quantifier such as `{{3}}`. */
  predicate QuantifierLike(name: string) {
    |name| > 0 && IsDigit(name[0]) && forall c :: c in name ==> IsDigit(c) || c == ','
  }

  /** A name whose placeholder the regular expression matches literally. */
  predicate LiteralName(name: string) {
    (forall c :: c in name ==> c !in RegexMetacharacters) && !QuantifierLike(name)
  }

  predicate IsLetter(c: char) {
    'A' <= c <= 'Z' || 'a' <= c <= 'z'
  }

  /** A name made only of ASCII letters has no regular-expression syntax in it. */
  lemma LetterNameIsLiteral(name: string)
    requires forall i :: 0 <= i < |name| ==> IsLetter(name[i])
    ensures LiteralName(name)
  {
    if |name| > 0 {
      assert !IsDigit(name[0]);
    }
  }

  /** A variable whose substitution is literal: plain name, and no `$` pattern in the value. */
  predicate Literal(v: Variable) {
    LiteralName(v.name) && '$' !in v.value
  }

  /** Replace every occurrence of `pat`, leftmost first and without overlap. */
  function ReplaceAll(s: string, pat: string, rep: string): (r: string)
    requires pat != []
    ensures |rep| == |pat| ==> |r| == |s|
    ensures rep == pat ==> r == s
    decreases |s|
  {
    if |s| < |pat| then s
    else if s[..|pat|] == pat then rep + ReplaceAll(s[|pat|..], pat, rep)
    else [s[0]] + ReplaceAll(s[1..], pat, rep)
  }

  /** replaceVariables: substitute the variables one after another, in list order. */
  function ReplaceVariables(text: string, variables: seq<Variable>): (r: string)
    requires forall v :: v in variables ==> Literal(v)
    ensures (forall v :: v in variables ==> v.value == Placeholder(v.name)) ==> r == text
    decreases |variables|
  {
    if variables == [] then text
    else
      var v := variables[0];
      ReplaceVariables(ReplaceAll(text, Placeholder(v.name), v.value), variables[1..])
  }

  /** `parts` with `sep` between consecutive parts. */
  function Join(parts: seq<string>, sep: string): string
    requires |parts| > 0
    decreases |parts|
  {
    if |parts| == 1 then parts[0] else parts[0] + sep + Join(parts[1..], sep)
  }

  /** A placeholder of a literal name cannot overlap itself. */
  lemma PlaceholderBorderless(name: string)
    requires LiteralName(name)
    ensures Borderless(Placeholder(name))
  {
    var pat := Placeholder(name);
    assert forall j :: 2 <= j < |pat| ==> pat[j] != '{' by {
      forall j | 2 <= j < |pat| ensures pat[j] != '{' {
        if j < |pat| - 2 {
          assert pat[j] == name[j - 2];
          assert name[j - 2] in name;
        }
      }
    }
    forall k | 0 < k < |pat| ensures !BorderAt(pat, k) {
      if |pat| - k >= 2 {
        assert pat[..k][0] != pat[|pat| - k..][0];
      } else {
        assert pat[..k][1] != pat[|pat| - k..][1];
      }
    }
  }

  /** A pattern longer than the text cannot occur in it. */
  lemma ShorterAbsent(s: string, pat: string)
    requires |s| < |pat|
    ensures !Contains(s, pat)
  {
  }

  /** A text as long as the pattern contains it only by being equal to it. */
  lemma SameLengthAbsent(s: string, pat: string)
    requires |s| == |pat| && s != pat
    ensures !Contains(s, pat)
  {
    forall i: nat ensures !OccursAt(s, pat, i) {
      if i == 0 {
        assert s[..|pat|] == s;
      }
    }
  }

  /** Dropping the first character cannot create an occurrence. */
  lemma AbsentInTail(s: string, pat: string)
    requires s != [] && !Contains(s, pat)
    ensures !Contains(s[1..], pat)
  {
    forall i: nat | OccursAt(s[1..], pat, i) ensures OccursAt(s, pat, i + 1) {
      assert s[1..][i..i + |pat|] == s[i + 1..i + 1 + |pat|];
    }
  }

  /** With a non-empty pattern-free text in front, the pattern does not start at index 0. */
  lemma NoMatchBeforeFirstOccurrence(a: string, pat: string, b: string)
    requires a != [] && pat != [] && Borderless(pat) && !Contains(a, pat)
    ensures (a + pat + b)[..|pat|] != pat
  {
    var s := a + pat + b;
    if |a| >= |pat| {
      assert !OccursAt(a, pat, 0);
      assert s[..|pat|] == a[..|pat|];
    } else {
      var k := |pat| - |a|;
      assert s[..|pat|][|a|..] == pat[..k];
      assert !BorderAt(pat, k);
      assert pat[|pat| - k..] == pat[|a|..];
    }
  }

  /** A string without the pattern comes back unchanged. */
  lemma {:induction false} ReplaceAllAbsent(s: string, pat: string, rep: string)
    requires pat != [] && !Contains(s, pat)
    ensures ReplaceAll(s, pat, rep) == s
    decreases |s|
  {
    if |s| >= |pat| {
      assert !OccursAt(s, pat, 0);
      AbsentInTail(s, pat);
      ReplaceAllAbsent(s[1..], pat, rep);
      assert [s[0]] + s[1..] == s;
    }
  }

  /** Scanning a pattern-free prefix reaches the first occurrence intact and replaces it. */
  lemma {:induction false} ReplaceAllFirstOccurrence(a: string, pat: string, b: string, rep: string)
    requires pat != [] && Borderless(pat) && !Contains(a, pat)
    ensures ReplaceAll(a + pat + b, pat, rep) == a + rep + ReplaceAll(b, pat, rep)
    decreases |a|
  {
    var s := a + pat + b;
    if a == [] {
      assert s[..|pat|] == pat && s[|pat|..] == b;
    } else {
      NoMatchBeforeFirstOccurrence(a, pat, b);
      assert ReplaceAll(s, pat, rep) == [a[0]] + ReplaceAll(s[1..], pat, rep);
      AbsentInTail(a, pat);
      assert s[1..] == a[1..] + pat + b;
      ReplaceAllFirstOccurrence(a[1..], pat, b, rep);
      assert [a[0]] + (a[1..] + rep) == a + rep;
    }
  }

  /** Every occurrence is replaced and everything between occurrences is kept: when the
      text is pattern-free parts separated by the pattern, the parts come back separated
      by the replacement. */
  lemma {:induction false} ReplaceAllJoin(parts: seq<string>, pat: string, rep: string)
    requires |parts| > 0 && pat != [] && Borderless(pat)
    requires forall p :: p in parts ==> !Contains(p, pat)
    ensures ReplaceAll(Join(parts, pat), pat, rep) == Join(parts, rep)
    decreases |parts|
  {
    if |parts| == 1 {
      ReplaceAllAbsent(parts[0], pat, rep);
    } else {
      assert parts[0] in parts;
      ReplaceAllFirstOccurrence(parts[0], pat, Join(parts[1..], pat), rep);
      ReplaceAllJoin(parts[1..], pat, rep);
    }
  }

  /** Resolving against no variables returns the text unchanged. */
  lemma ReplaceVariablesEmpty(text: string)
    ensures ReplaceVariables(text, []) == text
  {
  }

  /** Resolution is sequential: resolving against `a + b` is resolving against `a`, then `b`. */
  lemma {:induction false} ReplaceVariablesAppend(text: string, a: seq<Variable>, b: seq<Variable>)
    requires forall v :: v in a + b ==> Literal(v)
    ensures ReplaceVariables(text, a + b) == ReplaceVariables(ReplaceVariables(text, a), b)
    decreases |a|
  {
    if a == [] {
      assert a + b == b;
    } else {
      var v := a[0];
      assert (a + b)[0] == v && (a + b)[1..] == a[1..] + b;
      ReplaceVariablesAppend(ReplaceAll(text, Placeholder(v.name), v.value), a[1..], b);
    }
  }

  /** A text that mentions none of the variables' placeholders comes back unchanged, so
      placeholders of unknown names are left verbatim. */
  lemma {:induction false} ReplaceVariablesUnmatched(text: string, variables: seq<Variable>)
    requires forall v :: v in variables ==> Literal(v) && !Contains(text, Placeholder(v.name))
    ensures ReplaceVariables(text, variables) == text
    decreases |variables|
  {
    if variables != [] {
      var v := variables[0];
      assert v in variables;
      ReplaceAllAbsent(text, Placeholder(v.name), v.value);
      ReplaceVariablesUnmatched(text, variables[1..]);
    }
  }

  /** One variable: every one of its placeholders in the text becomes its value, and the
      text between them is kept. */
  lemma ReplaceVariableEverywhere(parts: seq<string>, v: Variable)
    requires |parts| > 0 && Literal(v)
    requires forall p :: p in parts ==> !Contains(p, Placeholder(v.name))
    ensures ReplaceVariables(Join(parts, Placeholder(v.name)), [v]) == Join(parts, v.value)
  {
    PlaceholderBorderless(v.name);
    ReplaceAllJoin(parts, Placeholder(v.name), v.value);
  }

  /** A text opening with a placeholder of `v` and free of it afterwards resolves to the
      value followed by the rest. */
  lemma LeadingPlaceholder(v: Variable, rest: string)
    requires Literal(v) && !Contains(rest, Placeholder(v.name))
    ensures ReplaceVariables(Placeholder(v.name) + rest, [v]) == v.value + rest
  {
    var pat := Placeholder(v.name);
    assert Join(["", rest], pat) == pat + rest;
    assert Join(["", rest], v.value) == v.value + rest;
    ShorterAbsent("", pat);
    ReplaceVariableEverywhere(["", rest], v);
  }

  /** `"{{A}}/{{A}}"` with `A = "x"` resolves to `"x/x"`. */
  lemma RepeatedPlaceholderExample()
    ensures ReplaceVariables("{{A}}/{{A}}", [Variable("A", "x")]) == "x/x"
  {
    var v := Variable("A", "x");
    var parts := ["", "/", ""];
    assert Literal(v) && Placeholder(v.name) == "{{A}}";
    assert Join(parts, "{{A}}") == "{{A}}/{{A}}";
    assert Join(parts, "x") == "x/x";
    ShorterAbsent("", "{{A}}");
    ShorterAbsent("/", "{{A}}");
    ReplaceVariableEverywhere(parts, v);
  }

  /** `"{{B}}"` with only `A` defined is left as it is. */
  lemma UnknownPlaceholderExample()
    ensures ReplaceVariables("{{B}}", [Variable("A", "x")]) == "{{B}}"
  {
    SameLengthAbsent("{{B}}", "{{A}}");
    ReplaceVariablesUnmatched("{{B}}", [Variable("A", "x")]);
  }

  /** A text that is exactly one placeholder resolves to that variable's value. */
  lemma SolePlaceholder(v: Variable)
    requires Literal(v)
    ensures ReplaceVariables(Placeholder(v.name), [v]) == v.value
  {
    var pat := Placeholder(v.name);
    assert Join(["", ""], pat) == pat;
    assert Join(["", ""], v.value) == v.value;
    ShorterAbsent("", pat);
    ReplaceVariableEverywhere(["", ""], v);
  }

  /** A value that is another variable's placeholder is resolved again when that
      variable comes later in the list. */
  lemma ChainedPlaceholder(a: Variable, b: Variable)
    requires Literal(a) && Literal(b) && a.value == Placeholder(b.name)
    ensures ReplaceVariables(Placeholder(a.name), [a, b]) == b.value
  {
    SolePlaceholder(a);
    SolePlaceholder(b);
    ReplaceVariablesAppend(Placeholder(a.name), [a], [b]);
    assert [a] + [b] == [a, b];
  }

  /** Order matters when a value itself holds a placeholder: `A = "{{B}}"` before
      `B = "y"` yields `"y"`; `OrderDependenceReversed` shows the other order. */
  lemma OrderDependenceExample()
    ensures ReplaceVariables("{{A}}", [Variable("A", "{{B}}"), Variable("B", "y")]) == "y"
  {
    var a, b := Variable("A", "{{B}}"), Variable("B", "y");
    assert Literal(a) && Placeholder(a.name) == "{{A}}";
    assert Literal(b) && Placeholder(b.name) == "{{B}}";
    ChainedPlaceholder(a, b);
  }

  /** With `B = "y"` first and `A = "{{B}}"` second, `"{{A}}"` resolves to `"{{B}}"`:
      a placeholder introduced by a value is only resolved by later variables. */
  lemma OrderDependenceReversed()
    ensures ReplaceVariables("{{A}}", [Variable("B", "y"), Variable("A", "{{B}}")]) == "{{B}}"
  {
    var a, b := Variable("A", "{{B}}"), Variable("B", "y");
    assert Literal(a) && Placeholder(a.name) == "{{A}}";
    assert Literal(b) && Placeholder(b.name) == "{{B}}";
    SolePlaceholder(a);
    SameLengthAbsent("{{A}}", "{{B}}");
    ReplaceVariablesUnmatched("{{A}}", [b]);
    ReplaceVariablesAppend("{{A}}", [b], [a]);
    assert [b] + [a] == [b, a];
  }
}
