/** Text comparisons, and their translation into regular expressions and path wildcards. */
module Patterns {
  import opened Wrappers

  datatype Op = Contains | Prefix | Suffix | Equals | Regex | OtherOp(name: string)

  predicate HasAt(s: string, v: string, i: nat) { i + |v| <= |s| && s[i..i + |v|] == v }

  // What a comparison other than Regex means.
  predicate Holds(op: Op, v: string, s: string) {
    match op
    case Equals => s == v
    case Prefix => HasAt(s, v, 0)
    case Suffix => |v| <= |s| && HasAt(s, v, |s| - |v|)
    case _ => exists i | 0 <= i <= |s| :: HasAt(s, v, i)
  }

  predicate Special(c: char) { c in "\\.+*?()|[]{}^$" }

  // regexp.QuoteMeta
  function QuoteMeta(v: string): string {
    if v == "" then ""
    else (if Special(v[0]) then ['\\', v[0]] else [v[0]]) + QuoteMeta(v[1..])
  }

  function HeaderPattern(op: Op, v: string): string {
    match op
    case Prefix => "^" + QuoteMeta(v)
    case Suffix => QuoteMeta(v) + "$"
    case Regex => v
    case Equals => "^" + QuoteMeta(v) + "$"
    case _ => QuoteMeta(v)
  }

  // The literal text of a pattern that has no metacharacter except a final `$`, and whether it has that.
  function Unquote(p: string): Option<(string, bool)> {
    if p == "" then Some(("", false))
    else if p == "$" then Some(("", true))
    else if p[0] == '\\' then
      (if |p| >= 2 && Special(p[1]) then Cons(p[1], Unquote(p[2..])) else None)
    else if Special(p[0]) then None
    else Cons(p[0], Unquote(p[1..]))
  }

  function Cons(c: char, rest: Option<(string, bool)>): Option<(string, bool)> {
    if rest.None? then None else Some(([c] + rest.value.0, rest.value.1))
  }

  // Searching s for pattern p: literal patterns by their meaning, the rest by the engine.
  predicate Search(engine: (string, string) -> bool, p: string, s: string) {
    var anchored := p != "" && p[0] == '^';
    var body := Unquote(if anchored then p[1..] else p);
    match body
    case None => engine(p, s)
    case Some((lit, toEnd)) =>
      Holds(if anchored then (if toEnd then Equals else Prefix) else if toEnd then Suffix else Contains, lit, s)
  }

  lemma {:induction false} UnquoteUndoesQuote(v: string, toEnd: bool)
    ensures Unquote(QuoteMeta(v) + (if toEnd then "$" else "")) == Some((v, toEnd))
  {
    var tail := if toEnd then "$" else "";
    if v == "" {
      assert QuoteMeta(v) + tail == tail;
    } else {
      UnquoteUndoesQuote(v[1..], toEnd);
      var rest := QuoteMeta(v[1..]) + tail;
      var p := QuoteMeta(v) + tail;
      if Special(v[0]) {
        assert p == ['\\', v[0]] + rest;
        assert p[2..] == rest;
      } else {
        assert p == [v[0]] + rest;
        assert p[1..] == rest;
      }
      assert [v[0]] + v[1..] == v;
    }
  }

  // The pattern emitted for a literal comparison finds exactly the texts the comparison accepts,
  // whatever characters the value contains.
  lemma HeaderPatternMeansOp(engine: (string, string) -> bool, op: Op, v: string, s: string)
    requires op in {Contains, Prefix, Suffix, Equals}
    ensures Search(engine, HeaderPattern(op, v), s) <==> Holds(op, v, s)
  {
    UnquoteUndoesQuote(v, false);
    UnquoteUndoesQuote(v, true);
    assert QuoteMeta(v) + "" == QuoteMeta(v);
    assert ("^" + QuoteMeta(v))[1..] == QuoteMeta(v);
    assert ("^" + QuoteMeta(v) + "$")[1..] == QuoteMeta(v) + "$";
    if v != "" {
      assert (QuoteMeta(v) + "$")[0] == QuoteMeta(v)[0];
    }
  }

  // ---------------------------------------------------------------- path wildcards

  function PathPattern(op: Op, v: string): string {
    match op
    case Prefix => v + "*"
    case Suffix => "*" + v
    case Contains => "*" + v + "*"
    case _ => v
  }

  // A value the path matcher reads literally.
  predicate Plain(v: string) { v != "" && forall c | c in v :: c !in "*?[\\%" }

  // The path matcher: `*` at either end is a wildcard, anything else special is left to the engine.
  predicate GlobMatch(engine: (string, string) -> bool, p: string, path: string) {
    var lead := |p| > 1 && p[0] == '*';
    var trail := |p| > 1 && p[|p| - 1] == '*';
    var inner :=
      if lead && trail && |p| > 2 then p[1..|p| - 1]
      else if lead then p[1..]
      else if trail then p[..|p| - 1]
      else p;
    if !Plain(inner) then engine(p, path)
    else
      var op := if lead && trail then Contains else if lead then Suffix else if trail then Prefix else Equals;
      Holds(op, inner, path)
  }

  lemma PathPatternMeansOp(engine: (string, string) -> bool, op: Op, v: string, path: string)
    requires op in {Contains, Prefix, Suffix, Equals} && Plain(v)
    ensures GlobMatch(engine, PathPattern(op, v), path) <==> Holds(op, v, path)
  {
    assert v[0] in v && v[|v| - 1] in v;
    assert (v + "*")[..|v|] == v;
    assert ("*" + v)[1..] == v;
    assert ("*" + v + "*")[1..|v| + 1] == v;
  }

  // Whatever a comparison accepts contains every character of its value.
  lemma HoldsMeansWithin(op: Op, v: string, s: string, k: nat)
    requires k < |v| && Holds(op, v, s)
    ensures v[k] in s
  {
    var i := match op {
      case Equals => 0
      case Prefix => 0
      case Suffix => |s| - |v|
      case _ => var i :| 0 <= i <= |s| && HasAt(s, v, i); i
    };
    assert v[k] == s[i..i + |v|][k] == s[i + k];
  }

  // Every text holds of itself.
  lemma HoldsOfItself(op: Op, s: string)
    ensures Holds(op, s, s)
  {
    assert HasAt(s, s, 0);
  }

  // The part of a pattern that is compared literally, if any, and how.
  function Literal(p: string): (Op, string) {
    var lead := |p| > 1 && p[0] == '*';
    var trail := |p| > 1 && p[|p| - 1] == '*';
    if lead && trail && |p| > 2 then (Contains, p[1..|p| - 1])
    else if lead then (if trail then Contains else Suffix, p[1..])
    else if trail then (Prefix, p[..|p| - 1])
    else (Equals, p)
  }

  lemma GlobMatchIsLiteral(engine: (string, string) -> bool, p: string, path: string)
    ensures GlobMatch(engine, p, path) <==>
            if Plain(Literal(p).1) then Holds(Literal(p).0, Literal(p).1, path) else engine(p, path)
  {
  }

  // A value with a wildcard is compared in some other way on some path.
  lemma WildcardIsMisread(op: Op, v: string) returns (engine: (string, string) -> bool, path: string)
    requires op in {Contains, Prefix, Suffix, Equals} && v != "" && !Plain(v)
    ensures GlobMatch(engine, PathPattern(op, v), path) != Holds(op, v, path)
  {
    var p := PathPattern(op, v);
    var (how, text) := Literal(p);
    if Plain(text) {
      engine, path := (_, _) => false, text;
      HoldsOfItself(how, text);
      var k :| 0 <= k < |v| && v[k] in "*?[\\%";
      if Holds(op, v, text) {
        HoldsMeansWithin(op, v, text, k);
        assert false;
      }
    } else {
      var answer := !Holds(op, v, "");
      engine, path := (_, _) => answer, "";
    }
    GlobMatchIsLiteral(engine, p, path);
  }

  // The pattern emitted for a path comparison matches exactly the paths the comparison accepts, for
  // every engine, if and only if the value has no wildcard in it: the value is not escaped.
  lemma PathPatternMeansOpExactlyWhen(op: Op, v: string)
    requires op in {Contains, Prefix, Suffix, Equals} && v != ""
    ensures PathPatternIsRight(op, v) <==> Plain(v)
  {
    if Plain(v) {
      forall engine: (string, string) -> bool, path
        ensures GlobMatch(engine, PathPattern(op, v), path) <==> Holds(op, v, path)
      {
        PathPatternMeansOp(engine, op, v, path);
      }
    } else {
      var engine, path := WildcardIsMisread(op, v);
      assert !(GlobMatch(engine, PathPattern(op, v), path) <==> Holds(op, v, path));
    }
  }

  ghost predicate PathPatternIsRight(op: Op, v: string) {
    forall engine: (string, string) -> bool, path :: GlobMatch(engine, PathPattern(op, v), path) <==> Holds(op, v, path)
  }

  // "equals /a*" also matches /ab.
  lemma AWildcardIsNotEscaped(engine: (string, string) -> bool)
    ensures GlobMatch(engine, PathPattern(Equals, "/a*"), "/ab") && !Holds(Equals, "/a*", "/ab")
  {
    var p, path := "/a*", "/ab";
    assert p[..2] == "/a" && path[0..2] == "/a";
    assert HasAt(path, "/a", 0);
    assert p[2] != path[2];
  }

  // The path matcher ignores the case of ASCII letters.
  function LowerChar(c: char): char { if 'A' <= c <= 'Z' then (c as int + 32) as char else c }

  function Lower(s: string): string { if s == "" then "" else [LowerChar(s[0])] + Lower(s[1..]) }

  lemma {:induction false} LowerDistributes(a: string, b: string)
    ensures Lower(a + b) == Lower(a) + Lower(b)
  {
    if a == "" {
      assert a + b == b;
    } else {
      LowerDistributes(a[1..], b);
      assert (a + b)[1..] == a[1..] + b && (a + b)[0] == a[0];
      assert Lower(a + b) == [LowerChar(a[0])] + (Lower(a[1..]) + Lower(b));
    }
  }

  lemma LowerKeepsPathPattern(op: Op, v: string)
    ensures Lower(PathPattern(op, v)) == PathPattern(op, Lower(v))
  {
    assert Lower("*") == "*";
    LowerDistributes("*", v);
    LowerDistributes(v, "*");
    LowerDistributes("*" + v, "*");
  }

  lemma LowerAt(s: string, k: nat)
    requires k < |s|
    ensures |Lower(s)| == |s| && Lower(s)[k] == LowerChar(s[k])
  {
    if k > 0 { LowerAt(s[1..], k - 1); } else { LowerLength(s); }
  }

  lemma {:induction false} LowerLength(s: string)
    ensures |Lower(s)| == |s|
  {
    if s != "" { LowerLength(s[1..]); }
  }

  lemma LowerKeepsPlain(v: string)
    requires Plain(v)
    ensures Plain(Lower(v))
  {
    LowerLength(v);
    forall c | c in Lower(v) ensures c !in "*?[\\%" {
      var k :| 0 <= k < |v| && Lower(v)[k] == c;
      LowerAt(v, k);
      assert v[k] in v;
    }
  }
}
