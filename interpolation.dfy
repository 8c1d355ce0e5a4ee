/**
 * The value substitution the settings reader applies to every text it
 * returns (the reader's default `BasicInterpolation`): `%%` stands for a
 * single `%`, `%(name)s` for the value of option `name` of the same
 * section, substituted in its turn, and any other `%` is an error.
 * Substitution nests at most `MaxDepth` levels deep.
 */
module Interpolation {
  import opened Results
  import opened Numerals

  /** The reader's `MAX_INTERPOLATION_DEPTH`. */
  const MaxDepth: nat := 10

  /** `InterpolationSyntaxError`, `InterpolationMissingOptionError` and `InterpolationDepthError`. */
  datatype InterpolationError = BadSyntax | MissingOption(reference: string) | TooDeep

  predicate NoPercent(s: string) {
    forall i :: 0 <= i < |s| ==> s[i] != '%'
  }

  /**
   * Expands `text` with the options of one section. `room` is how many more
   * levels of nesting are allowed; the reader starts with `MaxDepth`. The
   * text up to the first `%` is kept, and the rest starts with a directive.
   */
  function Expand(options: map<string, string>, text: string, room: nat): (r: Result<string, InterpolationError>)
    ensures room == 0 ==> r == Failure(TooDeep)
    decreases room, |text|, 2
  {
    if room == 0 then Failure(TooDeep)
    else
      var p := IndexOfAny(text, {'%'});
      if p == |text| then Success(text)
      else
        var expanded :- Directive(options, text[p..], room);
        Success(text[..p] + expanded)
  }

  /** A text that starts with `%`: `%%`, `%(name)s`, or an error; then the rest of the text. */
  function Directive(options: map<string, string>, rest: string, room: nat): (r: Result<string, InterpolationError>)
    requires room >= 1 && |rest| >= 1
    decreases room, |rest|, 1
  {
    if |rest| >= 2 && rest[1] == '%' then
      var tail :- Expand(options, rest[2..], room);
      Success("%" + tail)
    else if |rest| >= 2 && rest[1] == '(' then Reference(options, rest, room)
    else Failure(BadSyntax)
  }

  /** A text that starts with `%(`: the name up to `)`, which must be followed by `s`. */
  function Reference(options: map<string, string>, rest: string, room: nat): (r: Result<string, InterpolationError>)
    requires room >= 1 && |rest| >= 2
    decreases room, |rest|, 0
  {
    var q := IndexOfAny(rest[2..], {')'});
    if q == 0 || 3 + q >= |rest| || rest[3 + q] != 's' then Failure(BadSyntax)
    else
      var name := Lower(rest[2..2 + q]);
      if name !in options then Failure(MissingOption(name))
      else
        var v := options[name];
        var piece :- if '%' in v then Expand(options, v, room - 1) else Success(v);
        var tail :- Expand(options, rest[4 + q..], room);
        Success(piece + tail)
  }

  /** In `a + rest` with no `%` in `a` and `rest` starting with `%`, the first `%` starts `rest`. */
  lemma PercentAt(a: string, rest: string)
    requires NoPercent(a) && |rest| >= 1 && rest[0] == '%'
    ensures var t := a + rest;
            IndexOfAny(t, {'%'}) == |a| && t[..|a|] == a && t[|a|..] == rest
  {
    IndexOfAnyAppend(a, rest, {'%'});
    assert (a + rest)[..|a|] == a;
    assert (a + rest)[|a|..] == rest;
  }

  /** Text before the first `%` is kept as it is, in front of what the directive expands to. */
  lemma ExpandAfterPlain(options: map<string, string>, a: string, rest: string, room: nat)
    requires room >= 1 && NoPercent(a) && |rest| >= 1 && rest[0] == '%'
    ensures Expand(options, a + rest, room) ==
            var d := Directive(options, rest, room);
            if d.Success? then Success(a + d.value) else Failure(d.error)
  {
    PercentAt(a, rest);
  }

  /** A text without `%` is returned as it is. */
  lemma ExpandPlain(options: map<string, string>, text: string, room: nat)
    requires room >= 1 && NoPercent(text)
    ensures Expand(options, text, room) == Success(text)
  {
    IndexOfAnyNone(text, {'%'});
  }

  /** The escape directive `%%` is one `%`, followed by the rest expanded. */
  lemma DirectiveEscape(options: map<string, string>, b: string, room: nat)
    requires room >= 1
    ensures var tail := Expand(options, b, room);
            Directive(options, "%%" + b, room) ==
            if tail.Success? then Success("%" + tail.value) else Failure(tail.error)
  {
    assert ("%%" + b)[2..] == b;
  }

  /** `%%` stands for one `%`. */
  lemma ExpandEscape(options: map<string, string>, a: string, b: string, room: nat)
    requires room >= 1 && NoPercent(a)
    ensures var tail := Expand(options, b, room);
            Expand(options, a + "%%" + b, room) ==
            if tail.Success? then Success(a + "%" + tail.value) else Failure(tail.error)
  {
    assert a + "%%" + b == a + ("%%" + b);
    ExpandAfterPlain(options, a, "%%" + b, room);
    DirectiveEscape(options, b, room);
    forall u: string ensures a + ("%" + u) == a + "%" + u {
    }
  }

  /** A `%` followed by neither `%` nor `(`, or at the very end, is an error. */
  lemma ExpandStrayPercent(options: map<string, string>, a: string, b: string, room: nat)
    requires room >= 1 && NoPercent(a)
    requires b == [] || (b[0] != '%' && b[0] != '(')
    ensures Expand(options, a + "%" + b, room) == Failure(BadSyntax)
  {
    assert a + "%" + b == a + ("%" + b);
    ExpandAfterPlain(options, a, "%" + b, room);
  }

  /** `%(` not followed by a non-empty name, `)` and `s` is a bad reference, a syntax error. */
  lemma ExpandBadReference(options: map<string, string>, a: string, b: string, room: nat)
    requires room >= 1 && NoPercent(a)
    requires var q := IndexOfAny(b, {')'}); q == 0 || q + 1 >= |b| || b[q + 1] != 's'
    ensures Expand(options, a + "%(" + b, room) == Failure(BadSyntax)
  {
    var rest := "%(" + b;
    assert a + "%(" + b == a + rest;
    ExpandAfterPlain(options, a, rest, room);
    assert rest[2..] == b;
  }

  /** The pieces of `%(name)s` followed by `b`. */
  lemma ReferenceShape(name: string, b: string)
    requires |name| >= 1 && forall i :: 0 <= i < |name| ==> name[i] != ')'
    ensures var rest := "%(" + name + ")s" + b;
            var q := IndexOfAny(rest[2..], {')'});
            && q == |name| && 3 + q < |rest| && rest[3 + q] == 's'
            && rest[2..2 + q] == name && rest[4 + q..] == b
  {
    var rest := "%(" + name + ")s" + b;
    assert rest[2..] == name + (")s" + b);
    IndexOfAnyAppend(name, ")s" + b, {')'});
    assert (")s" + b)[0] == ')';
    assert rest[2..2 + |name|] == name;
    assert rest[4 + |name|..] == b;
  }

  /** A reference directive: the named option's value, expanded one level deeper when it has a `%`. */
  lemma ReferenceValue(options: map<string, string>, name: string, b: string, room: nat)
    requires room >= 1
    requires |name| >= 1 && forall i :: 0 <= i < |name| ==> name[i] != ')'
    ensures var r := Reference(options, "%(" + name + ")s" + b, room);
            && (Lower(name) !in options ==> r == Failure(MissingOption(Lower(name))))
            && (Lower(name) in options ==>
                  var v := options[Lower(name)];
                  var piece := if '%' in v then Expand(options, v, room - 1) else Success(v);
                  var tail := Expand(options, b, room);
                  r == if piece.Failure? then Failure(piece.error)
                       else if tail.Failure? then Failure(tail.error)
                       else Success(piece.value + tail.value))
  {
    ReferenceShape(name, b);
  }

  /** The text `a + "%(" + name + ")s" + b` as `a` then a directive. */
  lemma ReferenceAfterPlain(options: map<string, string>, a: string, name: string, b: string, room: nat)
    requires room >= 1 && NoPercent(a)
    ensures Expand(options, a + "%(" + name + ")s" + b, room) ==
            var d := Reference(options, "%(" + name + ")s" + b, room);
            if d.Success? then Success(a + d.value) else Failure(d.error)
  {
    var rest := "%(" + name + ")s" + b;
    assert a + "%(" + name + ")s" + b == a + rest;
    ExpandAfterPlain(options, a, rest, room);
  }

  /** `%(name)s` whose value has no `%` is replaced by that value. */
  lemma ExpandReference(options: map<string, string>, a: string, name: string, b: string, room: nat)
    requires room >= 1 && NoPercent(a)
    requires |name| >= 1 && forall i :: 0 <= i < |name| ==> name[i] != ')'
    requires Lower(name) in options && NoPercent(options[Lower(name)])
    ensures Expand(options, a + "%(" + name + ")s" + b, room) ==
            match Expand(options, b, room)
            case Success(u) => Success(a + options[Lower(name)] + u)
            case Failure(e) => Failure(e)
  {
    ReferenceAfterPlain(options, a, name, b, room);
    assert '%' !in options[Lower(name)];
    ReferenceValue(options, name, b, room);
    if Expand(options, b, room).Success? {
      var u := Expand(options, b, room).value;
      assert a + (options[Lower(name)] + u) == a + options[Lower(name)] + u;
    }
  }

  /** A text that is exactly `%(name)s`, naming an option without `%`, is that option's value. */
  lemma ExpandLoneReference(options: map<string, string>, name: string, room: nat)
    requires room >= 1
    requires |name| >= 1 && forall i :: 0 <= i < |name| ==> name[i] != ')'
    requires Lower(name) in options && NoPercent(options[Lower(name)])
    ensures Expand(options, "%(" + name + ")s", room) == Success(options[Lower(name)])
  {
    var none: string := [];
    assert "%(" + name + ")s" == none + "%(" + name + ")s" + none;
    ExpandReference(options, none, name, none, room);
    ExpandPlain(options, none, room);
    assert none + options[Lower(name)] + none == options[Lower(name)];
  }

  /** A reference to an option the section does not have is an error naming it. */
  lemma ExpandMissing(options: map<string, string>, a: string, name: string, b: string, room: nat)
    requires room >= 1 && NoPercent(a)
    requires |name| >= 1 && forall i :: 0 <= i < |name| ==> name[i] != ')'
    requires Lower(name) !in options
    ensures Expand(options, a + "%(" + name + ")s" + b, room) == Failure(MissingOption(Lower(name)))
  {
    ReferenceAfterPlain(options, a, name, b, room);
    ReferenceValue(options, name, b, room);
  }

  /** `%(name)s` whose value has a `%` is replaced by that value expanded one level deeper. */
  lemma ExpandNested(options: map<string, string>, a: string, name: string, b: string, room: nat)
    requires room >= 1 && NoPercent(a)
    requires |name| >= 1 && forall i :: 0 <= i < |name| ==> name[i] != ')'
    requires Lower(name) in options && '%' in options[Lower(name)]
    ensures Expand(options, a + "%(" + name + ")s" + b, room) ==
            match Expand(options, options[Lower(name)], room - 1)
            case Failure(e) => Failure(e)
            case Success(v) =>
              match Expand(options, b, room)
              case Success(u) => Success(a + v + u)
              case Failure(e) => Failure(e)
  {
    ReferenceAfterPlain(options, a, name, b, room);
    ReferenceValue(options, name, b, room);
    if Expand(options, options[Lower(name)], room - 1).Success? && Expand(options, b, room).Success? {
      var v := Expand(options, options[Lower(name)], room - 1).value;
      var u := Expand(options, b, room).value;
      assert a + (v + u) == a + v + u;
    }
  }

  /** An option whose value refers to itself exhausts the nesting depth, however much room is left. */
  lemma {:induction false} SelfReference(options: map<string, string>, name: string, room: nat)
    requires |name| >= 1 && forall i :: 0 <= i < |name| ==> name[i] != ')'
    requires Lower(name) == name && name in options && options[name] == "%(" + name + ")s"
    ensures Expand(options, options[name], room) == Failure(TooDeep)
  {
    if room > 0 {
      var t := options[name];
      assert t == "" + "%(" + name + ")s" + "";
      assert '%' in t by {
        assert t[0] == '%';
      }
      ExpandNested(options, "", name, "", room);
      SelfReference(options, name, room - 1);
    }
  }
}
