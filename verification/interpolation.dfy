/** The `%` interpolation a default `configparser.ConfigParser` applies to
    every value it hands out (`BasicInterpolation`): `%%` stands for one `%`,
    `%(name)s` for the value of option `name` of the same section (itself
    interpolated, to a nesting depth of ten), and any other `%` is an error. */
module Interpolation {
  import opened Results

  /** Why a value cannot be interpolated. */
  datatype InterpolationError =
    | BadSyntax                      // InterpolationSyntaxError
    | MissingReference(name: string) // InterpolationMissingOptionError
    | TooDeep                        // InterpolationDepthError

  /** `configparser.MAX_INTERPOLATION_DEPTH`. */
  const MaxDepth := 10

  /** Index of the first occurrence of `c` in `s`. */
  function IndexOf(s: string, c: char): (r: Option<nat>)
    ensures r.Some? <==> c in s
    ensures r.Some? ==> r.value < |s| && s[r.value] == c && c !in s[..r.value]
  {
    if |s| == 0 then None
    else if s[0] == c then Some(0)
    else match IndexOf(s[1..], c)
      case None => None
      case Some(i) =>
        assert s[1..][..i] == s[1..i + 1];
        Some(i + 1)
  }

  lemma IndexOfAfterPrefix(a: string, c: char, b: string)
    requires c !in a
    ensures IndexOf(a + [c] + b, c) == Some(|a|)
  {
    var s := a + [c] + b;
    assert s[..|a|] == a;
    assert s[..|a| + 1][|a|] == c;
  }

  /** `optionxform`, which lower-cases a reference name before the lookup. */
  function LowerChar(c: char): (r: char)
    ensures 'A' <= c <= 'Z' ==> 'a' <= r <= 'z' && r as int - c as int == 32
    ensures !('A' <= c <= 'Z') ==> r == c
  {
    if 'A' <= c <= 'Z' then (c as int + 32) as char else c
  }

  function Lower(s: string): (r: string)
    ensures |r| == |s| && forall i :: 0 <= i < |s| ==> r[i] == LowerChar(s[i])
  {
    seq(|s|, i requires 0 <= i < |s| => LowerChar(s[i]))
  }

  /** Matches `%\(([^)]+)\)s` at the head of `rest`: the name and the length
      of the whole reference. */
  function ReferenceAt(rest: string): (r: Option<(string, nat)>)
    requires |rest| >= 2 && rest[0] == '%' && rest[1] == '('
    ensures r.Some? ==>
      && |r.value.0| > 0 && ')' !in r.value.0
      && r.value.1 == |r.value.0| + 4 <= |rest|
      && rest[..r.value.1] == "%(" + r.value.0 + ")s"
  {
    match IndexOf(rest[2..], ')')
    case None => None
    case Some(j) =>
      if j == 0 || 2 + j + 1 >= |rest| || rest[2 + j + 1] != 's' then None
      else
        var name := rest[2..2 + j];
        assert rest[..j + 4] == "%(" + name + ")s";
        Some((name, j + 4))
  }

  /** `_interpolate_some(…, rest, …, depth)` of `BasicInterpolation`, with
      the text it appends to its accumulator as the result. `options` is
      the section's options over the defaults. */
  function Interpolate(options: map<string, string>, rest: string, depth: nat): (r: Result<string, InterpolationError>)
    ensures depth <= MaxDepth && '%' !in rest ==> r == Success(rest)
    ensures depth > MaxDepth ==> r == Failure(TooDeep)
    decreases MaxDepth + 1 - depth, |rest|
  {
    if depth > MaxDepth then Failure(TooDeep)
    else match IndexOf(rest, '%')
      case None => Success(rest)
      case Some(p) =>
        if p > 0 then
          var tail :- Interpolate(options, rest[p..], depth);
          Success(rest[..p] + tail)
        else if |rest| >= 2 && rest[1] == '%' then
          var tail :- Interpolate(options, rest[2..], depth);
          Success("%" + tail)
        else if |rest| >= 2 && rest[1] == '(' then
          match ReferenceAt(rest)
          case None => Failure(BadSyntax)
          case Some((name, n)) =>
            var key := Lower(name);
            if key !in options then Failure(MissingReference(key))
            else
              var v := options[key];
              var expanded :- if '%' in v then Interpolate(options, v, depth + 1) else Success(v);
              var tail :- Interpolate(options, rest[n..], depth);
              Success(expanded + tail)
        else Failure(BadSyntax)
  }

  /** How a literal value is written in the file so that it reads back
      unchanged: every `%` doubled. */
  function Escape(s: string): (r: string)
    ensures |r| >= |s|
    ensures '%' !in s ==> r == s
  {
    if |s| == 0 then ""
    else (if s[0] == '%' then "%%" else [s[0]]) + Escape(s[1..])
  }

  /** `%%` contributes one `%` and interpolation goes on after it. */
  lemma DoublePercentStep(options: map<string, string>, t: string, u: string, depth: nat)
    requires depth <= MaxDepth && Interpolate(options, t, depth) == Success(u)
    ensures Interpolate(options, "%%" + t, depth) == Success("%" + u)
  {
    var rest := "%%" + t;
    assert IndexOf(rest, '%') == Some(0);
    assert rest[2..] == t;
  }

  /** Plain text before the first `%` is copied and interpolation goes on
      from that `%`. */
  lemma PlainPrefixStep(options: map<string, string>, a: string, t: string, u: string, depth: nat)
    requires depth <= MaxDepth && |a| > 0 && '%' !in a && |t| > 0 && t[0] == '%'
    requires Interpolate(options, t, depth) == Success(u)
    ensures Interpolate(options, a + t, depth) == Success(a + u)
  {
    assert a + t == a + ['%'] + t[1..];
    IndexOfAfterPrefix(a, '%', t[1..]);
    assert (a + t)[|a|..] == t;
    assert (a + t)[..|a|] == a;
  }

  lemma {:induction false} InterpolateEscapeAfter(options: map<string, string>, a: string, s: string, depth: nat)
    requires depth <= MaxDepth && '%' !in a
    ensures Interpolate(options, a + Escape(s), depth) == Success(a + s)
    decreases |s|, |a|
  {
    if |s| == 0 {
      assert a + Escape(s) == a && a + s == a;
    } else if s[0] != '%' {
      assert a + Escape(s) == (a + [s[0]]) + Escape(s[1..]);
      assert a + s == (a + [s[0]]) + s[1..];
      InterpolateEscapeAfter(options, a + [s[0]], s[1..], depth);
    } else if |a| == 0 {
      InterpolateEscapeAfter(options, [], s[1..], depth);
      assert [] + Escape(s[1..]) == Escape(s[1..]) && [] + s[1..] == s[1..];
      DoublePercentStep(options, Escape(s[1..]), s[1..], depth);
      assert a + Escape(s) == "%%" + Escape(s[1..]);
      assert a + s == "%" + s[1..];
    } else {
      InterpolateEscapeAfter(options, [], s, depth);
      assert [] + Escape(s) == Escape(s) && [] + s == s;
      assert Escape(s)[0] == '%';
      PlainPrefixStep(options, a, Escape(s), s, depth);
    }
  }

  /** A value written with every `%` doubled reads back as written before
      doubling, whatever the other options are. */
  lemma InterpolateEscape(options: map<string, string>, s: string, depth: nat)
    requires depth <= MaxDepth
    ensures Interpolate(options, Escape(s), depth) == Success(s)
  {
    InterpolateEscapeAfter(options, [], s, depth);
    assert [] + Escape(s) == Escape(s) && [] + s == s;
  }

  /** A `%` followed by neither `%` nor `(`, or ending the value, is a
      syntax error, whatever comes after it. */
  lemma {:induction false} BarePercentFails(options: map<string, string>, a: string, b: string, depth: nat)
    requires depth <= MaxDepth && '%' !in a
    requires |b| == 0 || (b[0] != '%' && b[0] != '(')
    ensures Interpolate(options, a + "%" + b, depth) == Failure(BadSyntax)
    decreases |a|
  {
    IndexOfAfterPrefix(a, '%', b);
    if |a| > 0 {
      BarePercentFails(options, [], b, depth);
      assert (a + "%" + b)[|a|..] == [] + "%" + b;
    } else {
      assert a + "%" + b == ['%'] + b;
    }
  }

  lemma ReferenceAtOf(name: string, tail: string)
    requires |name| > 0 && ')' !in name
    ensures ReferenceAt("%(" + name + ")s" + tail) == Some((name, |name| + 4))
  {
    var rest := "%(" + name + ")s" + tail;
    assert rest[2..] == name + [')'] + ("s" + tail);
    IndexOfAfterPrefix(name, ')', "s" + tail);
    assert rest[2..2 + |name|] == name;
  }

  /** `%(name)s` followed by plain text expands to the (plain) value of the
      lower-cased name, and fails naming it when it is absent. */
  lemma ReferenceExpands(options: map<string, string>, name: string, tail: string, depth: nat)
    requires depth <= MaxDepth && |name| > 0 && ')' !in name && '%' !in tail
    requires Lower(name) in options ==> '%' !in options[Lower(name)]
    ensures Lower(name) in options ==>
      Interpolate(options, "%(" + name + ")s" + tail, depth) == Success(options[Lower(name)] + tail)
    ensures Lower(name) !in options ==>
      Interpolate(options, "%(" + name + ")s" + tail, depth) == Failure(MissingReference(Lower(name)))
  {
    var rest := "%(" + name + ")s" + tail;
    ReferenceAtOf(name, tail);
    assert IndexOf(rest, '%') == Some(0);
    assert rest[|name| + 4..] == tail;
  }

  /** An option that refers to itself expands until the depth limit and
      then fails: the limit is what ends a reference cycle. */
  lemma {:induction false} SelfReferenceTooDeep(options: map<string, string>, key: string, depth: nat)
    requires |key| > 0 && ')' !in key && Lower(key) == key
    requires key in options && options[key] == "%(" + key + ")s"
    ensures Interpolate(options, options[key], depth) == Failure(TooDeep)
    decreases MaxDepth + 1 - depth
  {
    if depth <= MaxDepth {
      var rest := options[key];
      ReferenceAtOf(key, "");
      assert rest == "%(" + key + ")s" + "";
      assert IndexOf(rest, '%') == Some(0);
      assert '%' in rest by { assert rest[0] == '%'; }
      SelfReferenceTooDeep(options, key, depth + 1);
    }
  }
}
