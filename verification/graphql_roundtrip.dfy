/** Printing documents and parsing them back: whatever is written by the grammar, with arguments,
    directives, variables, shorthand queries and fragments, is accepted, and the parser reads the
    operations and fragments that were written. */
module GraphqlRoundTrip {
  import opened GraphqlSyntax
  import opened Wrappers

  // ----- documents as they are written

  datatype Value = Variable(name: string) | Scalar(token: Token) | ListValue(items: seq<Value>) | ObjectValue(pairs: seq<Pair>)

  datatype Pair = Pair(name: string, value: Value)

  datatype Directive = Directive(name: string, arguments: seq<Pair>)

  datatype Type = NamedType(name: string, nonNull: bool) | ListType(element: Type, nonNull: bool)

  datatype VariableDefinition = VariableDefinition(name: string, ty: Type, default: Option<Value>, directives: seq<Directive>)

  datatype Written =
    | WField(alias: Option<string>, name: string, arguments: seq<Pair>, directives: seq<Directive>, selections: seq<Written>)
    | WSpread(name: string, directives: seq<Directive>)
    | WInline(typeCondition: Option<string>, directives: seq<Directive>, selections: seq<Written>)

  datatype Definition =
    | Shorthand(selections: seq<Written>)
    | WOperation(kind: string, name: string, variables: seq<VariableDefinition>, directives: seq<Directive>, selections: seq<Written>)
    | WFragment(name: string, typeCondition: string, directives: seq<Directive>, selections: seq<Written>)

  // ----- what the parser should read

  function Read(w: Written): Selection
  {
    match w
    case WField(alias, name, _, _, selections) => Field(alias, name, ReadAll(selections))
    case WSpread(name, _) => FragmentSpread(name)
    case WInline(cond, _, selections) => InlineFragment(cond, ReadAll(selections))
  }

  function ReadAll(ws: seq<Written>): (ss: seq<Selection>)
    ensures |ss| == |ws|
  {
    if ws == [] then [] else [Read(ws[0])] + ReadAll(ws[1..])
  }

  function ReadDocument(ds: seq<Definition>): Document
  {
    if ds == [] then Document([], [])
    else
      var rest := ReadDocument(ds[1..]);
      match ds[0]
      case Shorthand(ws) => rest.(operations := [Operation("query", "", ReadAll(ws))] + rest.operations)
      case WOperation(kind, name, _, _, ws) => rest.(operations := [Operation(kind, name, ReadAll(ws))] + rest.operations)
      case WFragment(name, _, _, _) => rest.(fragments := [name] + rest.fragments)
  }

  // ----- printing to tokens

  function P(text: string): Token { Token(Punctuator, text) }

  function N(text: string): Token { Token(NameToken, text) }

  function ShowValue(v: Value): Tokens
    decreases v, 0
  {
    match v
    case Variable(name) => [P("$"), N(name)]
    case Scalar(token) => [token]
    case ListValue(items) => [P("[")] + ShowValues(items) + [P("]")]
    case ObjectValue(pairs) => [P("{")] + ShowPairs(pairs) + [P("}")]
  }

  function ShowValues(vs: seq<Value>): Tokens
    decreases vs, 0
  {
    if vs == [] then [] else ShowValue(vs[0]) + ShowValues(vs[1..])
  }

  function ShowPairs(ps: seq<Pair>): Tokens
    decreases ps, 0
  {
    if ps == [] then [] else [N(ps[0].name), P(":")] + ShowValue(ps[0].value) + ShowPairs(ps[1..])
  }

  function ShowArguments(ps: seq<Pair>): Tokens { if ps == [] then [] else [P("(")] + ShowPairs(ps) + [P(")")] }

  function ShowDirectives(ds: seq<Directive>): Tokens
  {
    if ds == [] then [] else [P("@"), N(ds[0].name)] + ShowArguments(ds[0].arguments) + ShowDirectives(ds[1..])
  }

  function ShowType(t: Type): Tokens
  {
    (match t
     case NamedType(name, _) => [N(name)]
     case ListType(element, _) => [P("[")] + ShowType(element) + [P("]")])
    + if t.nonNull then [P("!")] else []
  }

  function ShowDefault(d: Option<Value>): Tokens { if d.None? then [] else [P("=")] + ShowValue(d.value) }

  function ShowVariable(v: VariableDefinition): Tokens
  {
    [P("$"), N(v.name), P(":")] + (ShowType(v.ty) + (ShowDefault(v.default) + ShowDirectives(v.directives)))
  }

  function ShowVariableList(vs: seq<VariableDefinition>): Tokens
  {
    if vs == [] then [] else ShowVariable(vs[0]) + ShowVariableList(vs[1..])
  }

  function ShowVariables(vs: seq<VariableDefinition>): Tokens
  {
    if vs == [] then [] else [P("(")] + ShowVariableList(vs) + [P(")")]
  }

  function Show(w: Written): Tokens
    decreases w, 0
  {
    match w
    case WField(alias, name, arguments, directives, ws) =>
      (if alias.Some? then [N(alias.value), P(":")] else []) + [N(name)]
      + (ShowArguments(arguments) + (ShowDirectives(directives) + if ws == [] then [] else ShowSet(ws)))
    case WSpread(name, directives) => [P("..."), N(name)] + ShowDirectives(directives)
    case WInline(cond, directives, ws) =>
      [P("...")] + (if cond.Some? then [N("on"), N(cond.value)] else []) + (ShowDirectives(directives) + ShowSet(ws))
  }

  function ShowSet(ws: seq<Written>): Tokens
    decreases ws, 1
  {
    [P("{")] + ShowAll(ws) + [P("}")]
  }

  function ShowAll(ws: seq<Written>): Tokens
    decreases ws, 0
  {
    if ws == [] then [] else Show(ws[0]) + ShowAll(ws[1..])
  }

  function ShowDefinition(d: Definition): Tokens
  {
    match d
    case Shorthand(ws) => ShowSet(ws)
    case WOperation(kind, name, vs, ds, ws) =>
      [N(kind)] + (if name != "" then [N(name)] else []) + (ShowVariables(vs) + (ShowDirectives(ds) + ShowSet(ws)))
    case WFragment(name, cond, ds, ws) => [N("fragment"), N(name), N("on"), N(cond)] + (ShowDirectives(ds) + ShowSet(ws))
  }

  function ShowDocument(ds: seq<Definition>): Tokens
  {
    if ds == [] then [] else ShowDefinition(ds[0]) + ShowDocument(ds[1..])
  }

  // ----- what may be written

  predicate IsValidName(s: string) { s != [] && IsNameStart(s[0]) && forall c <- s :: IsNameContinue(c) }

  /** The text alone is read as this token. */
  predicate IsToken(t: Token) { t.text != [] && !IsIgnored(t.text[0]) && t.text[0] != '#' && FirstToken(t.text) == Some(t) }

  /** Variables may not occur in constant values. */
  predicate ValidValue(v: Value, constant: bool)
    decreases v, 0
  {
    match v
    case Variable(name) => !constant && IsValidName(name)
    case Scalar(token) => !token.kind.Punctuator? && IsToken(token)
    case ListValue(items) => ValidValues(items, constant)
    case ObjectValue(pairs) => ValidPairs(pairs, constant)
  }

  predicate ValidValues(vs: seq<Value>, constant: bool)
    decreases vs, 0
  {
    vs != [] ==> ValidValue(vs[0], constant) && ValidValues(vs[1..], constant)
  }

  predicate ValidPairs(ps: seq<Pair>, constant: bool)
    decreases ps, 0
  {
    ps != [] ==> IsValidName(ps[0].name) && ValidValue(ps[0].value, constant) && ValidPairs(ps[1..], constant)
  }

  predicate ValidDirectives(ds: seq<Directive>, constant: bool)
  {
    ds != [] ==> IsValidName(ds[0].name) && ValidPairs(ds[0].arguments, constant) && ValidDirectives(ds[1..], constant)
  }

  predicate ValidType(t: Type) { if t.NamedType? then IsValidName(t.name) else ValidType(t.element) }

  predicate ValidVariable(v: VariableDefinition)
  {
    && IsValidName(v.name) && ValidType(v.ty) && (v.default.Some? ==> ValidValue(v.default.value, true))
    && ValidDirectives(v.directives, true)
  }

  predicate Valid(w: Written)
  {
    match w
    case WField(alias, name, arguments, directives, ws) =>
      && (alias.Some? ==> IsValidName(alias.value)) && IsValidName(name)
      && ValidPairs(arguments, false) && ValidDirectives(directives, false) && AllValid(ws)
    case WSpread(name, directives) => IsValidName(name) && name != "on" && ValidDirectives(directives, false)
    case WInline(cond, directives, ws) =>
      (cond.Some? ==> IsValidName(cond.value)) && ValidDirectives(directives, false) && ws != [] && AllValid(ws)
  }

  predicate AllValid(ws: seq<Written>)
  {
    ws != [] ==> Valid(ws[0]) && AllValid(ws[1..])
  }

  predicate ValidDefinition(d: Definition)
  {
    && d.selections != [] && AllValid(d.selections)
    && match d
       case Shorthand(_) => true
       case WOperation(kind, name, vs, ds, _) =>
         IsOperationKind(kind) && (name == "" || IsValidName(name)) && (forall v <- vs :: ValidVariable(v)) && ValidDirectives(ds, false)
       case WFragment(name, cond, ds, _) => IsValidName(name) && name != "on" && IsValidName(cond) && ValidDirectives(ds, false)
  }

  // ----- values and arguments are skipped

  lemma PunctuatorsDiffer()
    ensures P("{") != P("}") && P("{") != P(":") && P("{") != P("(") && P("{") != P("@") && P("{") != P("...") && P("{") != P("=")
    ensures P("{") != P("$") && P("{") != P("[") && P("{") != P("]") && P("{") != P("!")
    ensures P("[") != P("]") && P("[") != P("$") && P("$") != P("]") && P("]") != P("!")
    ensures P("@") != P("(") && P("@") != P(":") && P("@") != P("=") && P("@") != P("!") && P("@") != P("{")
    ensures P("(") != P(":") && P("$") != P("(") && P("$") != P("@") && P("$") != P("=") && P("$") != P("!") && P("$") != P(")")
    ensures P(")") != P("(") && P(")") != P("@") && P(")") != P("=") && P(")") != P("!") && P("=") != P("!")
    ensures P("...") != P("}") && P("...") != P(":") && P("...") != P("(") && P("...") != P("@") && P("...") != P("{")
    ensures P("}") != P(":") && P("}") != P("(") && P("}") != P("@")
  {
    assert "{"[0] == '{' && "}"[0] == '}' && ":"[0] == ':' && "("[0] == '(' && ")"[0] == ')' && "@"[0] == '@' && "..."[0] == '.';
    assert "$"[0] == '$' && "["[0] == '[' && "]"[0] == ']' && "="[0] == '=' && "!"[0] == '!';
  }

  lemma {:induction false} ValueIsSkipped(v: Value, constant: bool, rest: Tokens)
    requires ValidValue(v, constant)
    ensures SkipValue(ShowValue(v) + rest, constant) == Some(rest)
    ensures !Is(ShowValue(v) + rest, "]")
    decreases v, 1
  {
    PunctuatorsDiffer();
    var ts := ShowValue(v) + rest;
    match v
    case Variable(name) =>
      assert ts[1..] == [N(name)] + rest && ts[2..] == rest;
    case Scalar(token) =>
      assert ts[1..] == rest;
    case ListValue(items) =>
      assert ts[1..] == ShowValues(items) + ([P("]")] + rest);
      ListIsSkipped(items, constant, rest);
    case ObjectValue(pairs) =>
      assert ts[1..] == ShowPairs(pairs) + ([P("}")] + rest);
      ObjectIsSkipped(pairs, constant, rest);
  }

  lemma {:induction false} ListIsSkipped(vs: seq<Value>, constant: bool, rest: Tokens)
    requires ValidValues(vs, constant)
    ensures SkipList(ShowValues(vs) + ([P("]")] + rest), constant) == Some(rest)
    decreases vs, 1
  {
    var tail := [P("]")] + rest;
    if vs == [] {
      assert [] + tail == tail && tail[1..] == rest;
    } else {
      var more := ShowValues(vs[1..]) + tail;
      assert ShowValues(vs) + tail == ShowValue(vs[0]) + more;
      ValueIsSkipped(vs[0], constant, more);
      ListIsSkipped(vs[1..], constant, rest);
    }
  }

  lemma PairShown(ps: seq<Pair>, tail: Tokens)
    requires ps != []
    ensures ShowPairs(ps) + tail == [N(ps[0].name), P(":")] + (ShowValue(ps[0].value) + (ShowPairs(ps[1..]) + tail))
  {
  }

  lemma PairIsSkipped(name: string, ts: Tokens, constant: bool)
    ensures SkipPair([N(name), P(":")] + ts, constant) == SkipValue(ts, constant)
  {
    var all := [N(name), P(":")] + ts;
    assert all[1..] == [P(":")] + ts && all[2..] == ts;
  }

  lemma {:induction false} ObjectIsSkipped(ps: seq<Pair>, constant: bool, rest: Tokens)
    requires ValidPairs(ps, constant)
    ensures SkipObject(ShowPairs(ps) + ([P("}")] + rest), constant) == Some(rest)
    decreases ps, 1
  {
    var tail := [P("}")] + rest;
    if ps == [] {
      assert [] + tail == tail && tail[1..] == rest;
    } else {
      PunctuatorsDiffer();
      var more := ShowPairs(ps[1..]) + tail;
      PairShown(ps, tail);
      PairIsSkipped(ps[0].name, ShowValue(ps[0].value) + more, constant);
      ValueIsSkipped(ps[0].value, constant, more);
      ObjectIsSkipped(ps[1..], constant, rest);
    }
  }

  lemma {:induction false} PairsAreSkipped(ps: seq<Pair>, constant: bool, rest: Tokens)
    requires ps != [] && ValidPairs(ps, constant)
    ensures SkipPairs(ShowPairs(ps) + ([P(")")] + rest), constant) == Some(rest)
    decreases |ps|
  {
    PunctuatorsDiffer();
    var tail := [P(")")] + rest;
    var more := ShowPairs(ps[1..]) + tail;
    PairShown(ps, tail);
    PairIsSkipped(ps[0].name, ShowValue(ps[0].value) + more, constant);
    ValueIsSkipped(ps[0].value, constant, more);
    if ps[1..] == [] {
      assert more == tail && tail[1..] == rest;
    } else {
      PairShown(ps[1..], tail);
      assert !Is(more, ")");
      PairsAreSkipped(ps[1..], constant, rest);
    }
  }

  lemma OpenArguments(d: Tokens, constant: bool, rest: Tokens)
    requires SkipPairs(d, constant) == Some(rest)
    ensures SkipArguments([P("(")] + d, constant) == Some(rest)
  {
    assert ([P("(")] + d)[1..] == d;
  }

  lemma ArgumentsShown(ps: seq<Pair>, rest: Tokens)
    requires ps != []
    ensures ShowArguments(ps) + rest == [P("(")] + (ShowPairs(ps) + ([P(")")] + rest))
  {
  }

  lemma ArgumentsAreSkipped(ps: seq<Pair>, constant: bool, rest: Tokens)
    requires ValidPairs(ps, constant) && !Is(rest, "(")
    ensures SkipArguments(ShowArguments(ps) + rest, constant) == Some(rest)
  {
    if ps == [] {
      assert ShowArguments(ps) + rest == rest;
    } else {
      PairsAreSkipped(ps, constant, rest);
      ArgumentsShown(ps, rest);
      OpenArguments(ShowPairs(ps) + ([P(")")] + rest), constant, rest);
    }
  }

  /** What comes after directives. */
  predicate AfterDirectives(ts: Tokens) { !Is(ts, "(") && !Is(ts, "@") }

  lemma DirectiveShape(name: string, d: Tokens, more: Tokens, constant: bool, rest: Tokens)
    requires SkipArguments(d, constant) == Some(more) && SkipDirectives(more, constant) == Some(rest)
    ensures SkipDirectives([P("@"), N(name)] + d, constant) == Some(rest)
  {
    var ts := [P("@"), N(name)] + d;
    assert ts[1..] == [N(name)] + d;
    assert ts[2..] == d;
  }

  lemma {:induction false} DirectivesAreSkipped(ds: seq<Directive>, constant: bool, rest: Tokens)
    requires ValidDirectives(ds, constant) && AfterDirectives(rest)
    ensures SkipDirectives(ShowDirectives(ds) + rest, constant) == Some(rest)
    ensures !Is(ShowDirectives(ds) + rest, "(")
    decreases |ds|
  {
    if ds == [] {
      assert ShowDirectives(ds) + rest == rest;
    } else {
      PunctuatorsDiffer();
      var more := ShowDirectives(ds[1..]) + rest;
      DirectivesAreSkipped(ds[1..], constant, rest);
      ArgumentsAreSkipped(ds[0].arguments, constant, more);
      DirectiveShape(ds[0].name, ShowArguments(ds[0].arguments) + more, more, constant, rest);
      DirectiveShown(ds, rest);
    }
  }

  lemma DirectiveShown(ds: seq<Directive>, rest: Tokens)
    requires ds != []
    ensures ShowDirectives(ds) + rest == [P("@"), N(ds[0].name)] + (ShowArguments(ds[0].arguments) + (ShowDirectives(ds[1..]) + rest))
  {
  }

  // ----- types and variables are skipped

  lemma NamedTypeIsSkipped(name: string, more: Tokens)
    ensures SkipNullableType([N(name)] + more) == Some(more)
  {
    assert ([N(name)] + more)[1..] == more;
  }

  lemma ListTypeIsSkipped(d: Tokens, more: Tokens)
    requires SkipType(d) == Some([P("]")] + more)
    ensures SkipNullableType([P("[")] + d) == Some(more)
  {
    var ts := [P("[")] + d;
    assert ts[1..] == d && ([P("]")] + more)[1..] == more;
  }

  function Bang(nonNull: bool): Tokens { if nonNull then [P("!")] else [] }

  lemma BangIsSkipped(ts: Tokens, nonNull: bool, rest: Tokens)
    requires SkipNullableType(ts) == Some(Bang(nonNull) + rest) && !Is(rest, "!")
    ensures SkipType(ts) == Some(rest)
  {
    if nonNull {
      assert (Bang(nonNull) + rest)[1..] == rest;
    } else {
      assert Bang(nonNull) + rest == rest;
    }
  }

  lemma TypeShown(t: Type, rest: Tokens)
    ensures ShowType(t) + rest ==
      match t
      case NamedType(name, nonNull) => [N(name)] + (Bang(nonNull) + rest)
      case ListType(element, nonNull) => [P("[")] + (ShowType(element) + ([P("]")] + (Bang(nonNull) + rest)))
  {
  }

  lemma {:induction false} TypeIsSkipped(t: Type, rest: Tokens)
    requires ValidType(t) && !Is(rest, "!")
    ensures SkipType(ShowType(t) + rest) == Some(rest)
    decreases t
  {
    var more := Bang(t.nonNull) + rest;
    TypeShown(t, rest);
    match t
    case NamedType(name, _) => NamedTypeIsSkipped(name, more);
    case ListType(element, _) =>
      var inner := [P("]")] + more;
      PunctuatorsDiffer();
      TypeIsSkipped(element, inner);
      ListTypeIsSkipped(ShowType(element) + inner, more);
    BangIsSkipped(ShowType(t) + rest, t.nonNull, rest);
  }

  lemma VariableShape(name: string, d: Tokens, e: Tokens, f: Tokens, rest: Tokens)
    requires SkipType(d) == Some(e) && SkipDirectives(f, true) == Some(rest)
    requires if Is(e, "=") then SkipValue(e[1..], true) == Some(f) else e == f
    ensures SkipVariable([P("$"), N(name), P(":")] + d) == Some(rest)
  {
    var ts := [P("$"), N(name), P(":")] + d;
    assert ts[1..] == [N(name), P(":")] + d;
    assert ts[2..] == [P(":")] + d;
    assert ts[3..] == d;
  }

  lemma VariableShown(v: VariableDefinition, rest: Tokens)
    ensures ShowVariable(v) + rest ==
      [P("$"), N(v.name), P(":")] + (ShowType(v.ty) + (ShowDefault(v.default) + (ShowDirectives(v.directives) + rest)))
  {
  }

  lemma VariableIsSkipped(v: VariableDefinition, rest: Tokens)
    requires ValidVariable(v) && (Is(rest, "$") || Is(rest, ")"))
    ensures SkipVariable(ShowVariable(v) + rest) == Some(rest)
  {
    var f := ShowDirectives(v.directives) + rest;
    var e := ShowDefault(v.default) + f;
    PunctuatorsDiffer();
    DirectivesAreSkipped(v.directives, true, rest);
    DirectivesStart(v.directives, rest);
    DefaultIsSkipped(v.default, f);
    TypeIsSkipped(v.ty, e);
    VariableShape(v.name, ShowType(v.ty) + e, e, f, rest);
    VariableShown(v, rest);
  }

  lemma DefaultIsSkipped(d: Option<Value>, f: Tokens)
    requires (d.Some? ==> ValidValue(d.value, true)) && !Is(f, "=") && !Is(f, "!")
    ensures var e := ShowDefault(d) + f;
      (if Is(e, "=") then SkipValue(e[1..], true) == Some(f) else e == f) && !Is(e, "!")
  {
    if d.Some? {
      ValueIsSkipped(d.value, true, f);
      DefaultShape(ShowValue(d.value), f);
    } else {
      assert ShowDefault(d) + f == f;
    }
  }

  lemma DefaultShape(v: Tokens, f: Tokens)
    requires SkipValue(v + f, true) == Some(f)
    ensures var e := [P("=")] + v + f; Is(e, "=") && SkipValue(e[1..], true) == Some(f) && !Is(e, "!")
  {
    PunctuatorsDiffer();
    assert ([P("=")] + v + f)[1..] == v + f;
  }

  lemma DirectivesStart(ds: seq<Directive>, rest: Tokens)
    ensures ShowDirectives(ds) + rest == rest || Is(ShowDirectives(ds) + rest, "@")
  {
    if ds == [] {
      assert [] + rest == rest;
    }
  }

  lemma LastVariable(ts: Tokens, rest: Tokens)
    requires SkipVariable(ts) == Some([P(")")] + rest)
    ensures SkipVariables(ts) == Some(rest)
  {
    assert ([P(")")] + rest)[1..] == rest;
  }

  lemma OneMoreVariable(ts: Tokens, after: Tokens, rest: Tokens)
    requires SkipVariable(ts) == Some(after) && !Is(after, ")") && SkipVariables(after) == Some(rest)
    ensures SkipVariables(ts) == Some(rest)
  {
  }

  lemma VariableListShown(vs: seq<VariableDefinition>, tail: Tokens)
    requires vs != []
    ensures ShowVariableList(vs) + tail == ShowVariable(vs[0]) + (ShowVariableList(vs[1..]) + tail)
    ensures Is(ShowVariableList(vs) + tail, "$")
  {
  }

  lemma {:induction false} VariablesAreSkipped(vs: seq<VariableDefinition>, rest: Tokens)
    requires vs != [] && forall v <- vs :: ValidVariable(v)
    ensures SkipVariables(ShowVariableList(vs) + ([P(")")] + rest)) == Some(rest)
    decreases |vs|
  {
    var tail := [P(")")] + rest;
    var more := ShowVariableList(vs[1..]) + tail;
    VariableListShown(vs, tail);
    if vs[1..] == [] {
      assert more == tail;
      VariableIsSkipped(vs[0], tail);
      LastVariable(ShowVariableList(vs) + tail, rest);
    } else {
      PunctuatorsDiffer();
      VariableListShown(vs[1..], tail);
      VariableIsSkipped(vs[0], more);
      VariablesAreSkipped(vs[1..], rest);
      OneMoreVariable(ShowVariableList(vs) + tail, more, rest);
    }
  }

  // ----- selections are read

  /** What can follow a selection. */
  predicate Follows(ts: Tokens) { IsName(ts) || Is(ts, "...") || Is(ts, "}") }

  lemma FollowsNothingElse(ts: Tokens)
    requires Follows(ts)
    ensures !Is(ts, ":") && AfterDirectives(ts) && !Is(ts, "{")
  {
    PunctuatorsDiffer();
  }

  lemma {:induction false} SetIsRead(ws: seq<Written>, rest: Tokens)
    requires ws != [] && AllValid(ws)
    ensures ParseSelectionSet(ShowSet(ws) + rest) == Some((ReadAll(ws), rest))
    decreases ws, 1
  {
    var ts := ShowSet(ws) + rest;
    assert ts[1..] == ShowAll(ws) + ([P("}")] + rest);
    AllAreRead(ws, rest);
  }

  lemma LastSelection(ts: Tokens, s: Selection, rest: Tokens)
    requires ParseSelection(ts) == Some((s, [P("}")] + rest))
    ensures ParseSelections(ts) == Some(([s], rest))
  {
    assert ([P("}")] + rest)[1..] == rest;
  }

  lemma OneMoreSelection(ts: Tokens, s: Selection, after: Tokens, ss: seq<Selection>, rest: Tokens)
    requires ParseSelection(ts) == Some((s, after)) && !Is(after, "}") && ParseSelections(after) == Some((ss, rest))
    ensures ParseSelections(ts) == Some(([s] + ss, rest))
  {
  }

  lemma FirstShown(ws: seq<Written>, tail: Tokens)
    requires ws != []
    ensures ShowAll(ws) + tail == Show(ws[0]) + (ShowAll(ws[1..]) + tail)
  {
  }

  lemma ShowStarts(w: Written)
    ensures Show(w) != [] && (Show(w)[0].kind == NameToken || Show(w)[0] == P("..."))
  {
  }

  /** Printed selections do not start with a closing brace. */
  lemma NotClosed(ws: seq<Written>, more: Tokens)
    requires ws != []
    ensures !Is(ShowAll(ws) + more, "}") && Follows(ShowAll(ws) + more)
  {
    PunctuatorsDiffer();
    FirstShown(ws, more);
    ShowStarts(ws[0]);
  }

  lemma {:induction false} AllAreRead(ws: seq<Written>, rest: Tokens)
    requires ws != [] && AllValid(ws)
    ensures ParseSelections(ShowAll(ws) + ([P("}")] + rest)) == Some((ReadAll(ws), rest))
    decreases ws, 0
  {
    var tail := [P("}")] + rest;
    var after := ShowAll(ws[1..]) + tail;
    FirstShown(ws, tail);
    if |ws| == 1 {
      assert ws[1..] == [] && after == tail && ReadAll(ws) == [Read(ws[0])];
      SelectionIsRead(ws[0], after);
      LastSelection(ShowAll(ws) + tail, Read(ws[0]), rest);
    } else {
      AllAreRead(ws[1..], rest);
      NotClosed(ws[1..], tail);
      SelectionIsRead(ws[0], after);
      OneMoreSelection(ShowAll(ws) + tail, Read(ws[0]), after, ReadAll(ws[1..]), rest);
    }
  }

  function Body(ws: seq<Written>): Tokens { if ws == [] then [] else ShowSet(ws) }

  /** What comes after the name of a field. */
  function FieldRest(arguments: seq<Pair>, directives: seq<Directive>, ws: seq<Written>, after: Tokens): Tokens
  {
    ShowArguments(arguments) + (ShowDirectives(directives) + (Body(ws) + after))
  }

  lemma BodyStarts(ws: seq<Written>, after: Tokens)
    requires Follows(after)
    ensures AfterDirectives(Body(ws) + after) && !Is(Body(ws) + after, ":")
    ensures Is(Body(ws) + after, "{") <==> ws != []
    ensures ws == [] ==> Body(ws) + after == after
  {
    PunctuatorsDiffer();
    FollowsNothingElse(after);
    if ws == [] {
      assert [] + after == after;
    }
  }

  lemma {:induction false} FieldRestIsRead(
    alias: Option<string>, name: string, arguments: seq<Pair>, directives: seq<Directive>, ws: seq<Written>, after: Tokens, all: Tokens)
    requires ValidPairs(arguments, false) && ValidDirectives(directives, false) && AllValid(ws) && Follows(after)
    requires var d := FieldRest(arguments, directives, ws, after); |d| < |all| && (forall t <- d :: t in all)
    requires N(name) in all
    ensures ParseFieldRest(alias, name, FieldRest(arguments, directives, ws, after), all) == Some((Field(alias, name, ReadAll(ws)), after))
    decreases ws, 2
  {
    var b := Body(ws) + after;
    BodyStarts(ws, after);
    DirectivesAreSkipped(directives, false, b);
    ArgumentsAreSkipped(arguments, false, ShowDirectives(directives) + b);
    if ws != [] {
      SetIsRead(ws, after);
    }
  }

  lemma PlainField(name: string, d: Tokens)
    requires !Is(d, ":")
    ensures ParseSelection([N(name)] + d) == ParseFieldRest(None, name, d, [N(name)] + d)
  {
    assert ([N(name)] + d)[1..] == d;
  }

  lemma AliasedField(alias: string, name: string, d: Tokens)
    ensures var ts := [N(alias), P(":"), N(name)] + d; ParseSelection(ts) == ParseFieldRest(Some(alias), name, d, ts)
  {
    var ts := [N(alias), P(":"), N(name)] + d;
    assert ts[1..] == [P(":"), N(name)] + d;
    assert ts[2..] == [N(name)] + d;
    assert ts[3..] == d;
  }

  lemma FieldShown(w: Written, after: Tokens)
    requires w.WField?
    ensures Show(w) + after == (if w.alias.Some? then [N(w.alias.value), P(":"), N(w.name)] else [N(w.name)])
                               + FieldRest(w.arguments, w.directives, w.selections, after)
  {
    var head := if w.alias.Some? then [N(w.alias.value), P(":"), N(w.name)] else [N(w.name)];
    assert (if w.alias.Some? then [N(w.alias.value), P(":")] else []) + [N(w.name)] == head;
    assert Show(w) == head + (ShowArguments(w.arguments) + (ShowDirectives(w.directives) + Body(w.selections)));
    Regroup(head, ShowArguments(w.arguments), ShowDirectives(w.directives), Body(w.selections), after);
  }

  lemma NameBefore(start: Tokens, name: string, d: Tokens)
    requires N(name) in start
    ensures |d| < |start + d| && (forall t <- d :: t in start + d) && N(name) in start + d
  {
  }

  lemma NoColon(arguments: seq<Pair>, directives: seq<Directive>, ws: seq<Written>, after: Tokens)
    requires Follows(after)
    ensures !Is(FieldRest(arguments, directives, ws, after), ":")
  {
    PunctuatorsDiffer();
    BodyStarts(ws, after);
    var b := Body(ws) + after;
    DirectivesStart(directives, b);
    if arguments == [] {
      assert FieldRest(arguments, directives, ws, after) == ShowDirectives(directives) + b;
    }
  }

  lemma {:induction false} FieldIsRead(w: Written, after: Tokens)
    requires w.WField? && Valid(w) && Follows(after)
    ensures ParseSelection(Show(w) + after) == Some((Read(w), after))
    decreases w.selections, 3
  {
    var start := if w.alias.Some? then [N(w.alias.value), P(":"), N(w.name)] else [N(w.name)];
    var d := FieldRest(w.arguments, w.directives, w.selections, after);
    FieldShown(w, after);
    NameBefore(start, w.name, d);
    FieldRestIsRead(w.alias, w.name, w.arguments, w.directives, w.selections, after, start + d);
    if w.alias.Some? {
      AliasedField(w.alias.value, w.name, d);
    } else {
      NoColon(w.arguments, w.directives, w.selections, after);
      PlainField(w.name, d);
    }
  }

  lemma BareInline(ss: seq<Selection>, d: Tokens, s: Tokens, after: Tokens)
    requires !IsName(d) && SkipDirectives(d, false) == Some(s) && ParseSelectionSet(s) == Some((ss, after))
    ensures ParseSelection([P("...")] + d) == Some((InlineFragment(None, ss), after))
  {
    PunctuatorsDiffer();
    var ts := [P("...")] + d;
    assert ts[1..] == d;
  }

  lemma TypedInline(cond: string, ss: seq<Selection>, d: Tokens, s: Tokens, after: Tokens)
    requires SkipDirectives(d, false) == Some(s) && ParseSelectionSet(s) == Some((ss, after))
    ensures ParseSelection([P("..."), N("on"), N(cond)] + d) == Some((InlineFragment(Some(cond), ss), after))
  {
    PunctuatorsDiffer();
    var ts := [P("..."), N("on"), N(cond)] + d;
    assert ts[1..] == [N("on"), N(cond)] + d;
    assert ts[2..] == [N(cond)] + d;
    assert ts[3..] == d;
  }

  lemma InlineShown(w: Written, after: Tokens)
    requires w.WInline?
    ensures Show(w) + after == (if w.typeCondition.Some? then [P("..."), N("on"), N(w.typeCondition.value)] else [P("...")])
                               + (ShowDirectives(w.directives) + (ShowSet(w.selections) + after))
  {
  }

  /** Directives before a selection set. */
  lemma DirectivesBeforeSet(ds: seq<Directive>, ws: seq<Written>, after: Tokens)
    requires ValidDirectives(ds, false)
    ensures var s := ShowSet(ws) + after;
      Is(s, "{") && SkipDirectives(ShowDirectives(ds) + s, false) == Some(s) && !IsName(ShowDirectives(ds) + s) &&
      (Is(ShowDirectives(ds) + s, "@") || Is(ShowDirectives(ds) + s, "{"))
  {
    PunctuatorsDiffer();
    var s := ShowSet(ws) + after;
    DirectivesAreSkipped(ds, false, s);
    DirectivesStart(ds, s);
  }

  lemma {:induction false} InlineIsRead(w: Written, after: Tokens)
    requires w.WInline? && Valid(w)
    ensures ParseSelection(Show(w) + after) == Some((Read(w), after))
    decreases w.selections, 3
  {
    var s := ShowSet(w.selections) + after;
    var d := ShowDirectives(w.directives) + s;
    SetIsRead(w.selections, after);
    DirectivesBeforeSet(w.directives, w.selections, after);
    InlineShown(w, after);
    if w.typeCondition.Some? {
      TypedInline(w.typeCondition.value, ReadAll(w.selections), d, s, after);
    } else {
      BareInline(ReadAll(w.selections), d, s, after);
    }
  }

  lemma SpreadShape(name: string, d: Tokens, after: Tokens)
    requires name != "on" && SkipDirectives(d, false) == Some(after)
    ensures ParseSelection([P("..."), N(name)] + d) == Some((FragmentSpread(name), after))
  {
    var ts := [P("..."), N(name)] + d;
    assert ts[1..] == [N(name)] + d;
    assert ts[2..] == d;
  }

  lemma SpreadIsRead(name: string, ds: seq<Directive>, after: Tokens)
    requires name != "on" && ValidDirectives(ds, false) && Follows(after)
    ensures ParseSelection(Show(WSpread(name, ds)) + after) == Some((FragmentSpread(name), after))
  {
    FollowsNothingElse(after);
    DirectivesAreSkipped(ds, false, after);
    var d := ShowDirectives(ds) + after;
    SpreadShape(name, d, after);
    assert Show(WSpread(name, ds)) + after == [P("..."), N(name)] + d;
  }

  lemma {:induction false} SelectionIsRead(w: Written, after: Tokens)
    requires Valid(w) && Follows(after)
    ensures ParseSelection(Show(w) + after) == Some((Read(w), after))
    decreases w, 4
  {
    match w
    case WSpread(name, ds) => SpreadIsRead(name, ds, after);
    case WInline(_, _, _) => InlineIsRead(w, after);
    case WField(_, _, _, _, _) => FieldIsRead(w, after);
  }

  // ----- definitions are read

  lemma ShorthandIsRead(ws: seq<Written>, rest: Tokens)
    requires ws != [] && AllValid(ws)
    ensures ParseOperation(ShowSet(ws) + rest) == Some((Operation("query", "", ReadAll(ws)), rest))
    ensures !IsKeyword(ShowSet(ws) + rest, "fragment")
  {
    SetIsRead(ws, rest);
  }

  lemma OpenVariables(d: Tokens, rest: Tokens)
    requires SkipVariables(d) == Some(rest)
    ensures var t := [P("(")] + d; Is(t, "(") && SkipVariables(t[1..]) == Some(rest) && !IsName(t)
  {
    assert ([P("(")] + d)[1..] == d;
  }

  lemma VariablesShown(vs: seq<VariableDefinition>, d: Tokens)
    requires vs != []
    ensures ShowVariables(vs) + d == [P("(")] + (ShowVariableList(vs) + ([P(")")] + d))
  {
  }

  /** Variables, if any, before tokens that start with directives or the selection set. */
  lemma VariablesBefore(vs: seq<VariableDefinition>, d: Tokens)
    requires (forall v <- vs :: ValidVariable(v)) && (Is(d, "@") || Is(d, "{"))
    ensures var t := ShowVariables(vs) + d;
      (if Is(t, "(") then SkipVariables(t[1..]) else Some(t)) == Some(d) && !IsName(t)
  {
    if vs == [] {
      PunctuatorsDiffer();
      assert ShowVariables(vs) + d == d;
    } else {
      VariablesShown(vs, d);
      VariablesAreSkipped(vs, d);
      OpenVariables(ShowVariableList(vs) + ([P(")")] + d), d);
    }
  }

  lemma OperationShape(kind: string, name: string, t: Tokens, d: Tokens, s: Tokens, ss: seq<Selection>, rest: Tokens)
    requires IsOperationKind(kind) && !IsName(t) && (if Is(t, "(") then SkipVariables(t[1..]) else Some(t)) == Some(d)
    requires SkipDirectives(d, false) == Some(s) && ParseSelectionSet(s) == Some((ss, rest))
    ensures ParseOperation((if name != "" then [N(kind), N(name)] else [N(kind)]) + t) == Some((Operation(kind, name, ss), rest))
  {
    if name != "" {
      var ts := [N(kind), N(name)] + t;
      assert ts[1..] == [N(name)] + t;
      assert ts[2..] == t;
    } else {
      var ts := [N(kind)] + t;
      assert ts[1..] == t;
    }
  }

  lemma OperationShown(o: Definition, rest: Tokens)
    requires o.WOperation?
    ensures ShowDefinition(o) + rest == (if o.name != "" then [N(o.kind), N(o.name)] else [N(o.kind)])
      + (ShowVariables(o.variables) + (ShowDirectives(o.directives) + (ShowSet(o.selections) + rest)))
  {
    var head := if o.name != "" then [N(o.kind), N(o.name)] else [N(o.kind)];
    assert [N(o.kind)] + (if o.name != "" then [N(o.name)] else []) == head;
    Regroup(head, ShowVariables(o.variables), ShowDirectives(o.directives), ShowSet(o.selections), rest);
  }

  lemma Regroup<T>(head: seq<T>, a: seq<T>, b: seq<T>, c: seq<T>, rest: seq<T>)
    ensures head + (a + (b + c)) + rest == head + (a + (b + (c + rest)))
  {
  }

  lemma KindsAreNoFragment(kind: string)
    requires IsOperationKind(kind)
    ensures kind != "fragment"
  {
    assert "query"[0] == 'q' && "mutation"[0] == 'm' && "subscription"[0] == 's' && "fragment"[0] == 'f';
  }

  lemma OperationIsRead(o: Definition, rest: Tokens)
    requires o.WOperation? && ValidDefinition(o)
    ensures ParseOperation(ShowDefinition(o) + rest) == Some((Operation(o.kind, o.name, ReadAll(o.selections)), rest))
    ensures !IsKeyword(ShowDefinition(o) + rest, "fragment")
  {
    var s := ShowSet(o.selections) + rest;
    var d := ShowDirectives(o.directives) + s;
    var t := ShowVariables(o.variables) + d;
    DirectivesBeforeSet(o.directives, o.selections, rest);
    VariablesBefore(o.variables, d);
    SetIsRead(o.selections, rest);
    OperationShape(o.kind, o.name, t, d, s, ReadAll(o.selections), rest);
    OperationShown(o, rest);
    KindsAreNoFragment(o.kind);
  }

  lemma FragmentShape(name: string, cond: string, d: Tokens, s: Tokens, ss: seq<Selection>, rest: Tokens)
    requires name != "on" && SkipDirectives(d, false) == Some(s) && ParseSelectionSet(s) == Some((ss, rest))
    ensures ParseFragment([N("fragment"), N(name), N("on"), N(cond)] + d) == Some((name, rest))
  {
    var ts := [N("fragment"), N(name), N("on"), N(cond)] + d;
    assert ts[1..] == [N(name), N("on"), N(cond)] + d;
    assert ts[2..] == [N("on"), N(cond)] + d;
    assert ts[3..] == [N(cond)] + d;
    assert ts[4..] == d;
  }

  lemma FragmentIsRead(f: Definition, rest: Tokens)
    requires f.WFragment? && ValidDefinition(f)
    ensures ParseFragment(ShowDefinition(f) + rest) == Some((f.name, rest))
    ensures IsKeyword(ShowDefinition(f) + rest, "fragment")
  {
    var s := ShowSet(f.selections) + rest;
    var d := ShowDirectives(f.directives) + s;
    DirectivesBeforeSet(f.directives, f.selections, rest);
    SetIsRead(f.selections, rest);
    FragmentShape(f.name, f.typeCondition, d, s, ReadAll(f.selections), rest);
    assert ShowDefinition(f) + rest == [N("fragment"), N(f.name), N("on"), N(f.typeCondition)] + d;
  }

  lemma {:induction false} DefinitionsAreRead(ds: seq<Definition>)
    requires forall d <- ds :: ValidDefinition(d)
    ensures ParseDefinitions(ShowDocument(ds)) == Some(ReadDocument(ds))
  {
    if ds != [] {
      var rest := ShowDocument(ds[1..]);
      DefinitionsAreRead(ds[1..]);
      assert ValidDefinition(ds[0]);
      match ds[0]
      case Shorthand(ws) => ShorthandIsRead(ws, rest);
      case WOperation(_, _, _, _, _) => OperationIsRead(ds[0], rest);
      case WFragment(_, _, _, _) => FragmentIsRead(ds[0], rest);
    }
  }

  // ----- printing to text

  /** The tokens as text, each followed by a space. */
  function Render(ts: Tokens): string
  {
    if ts == [] then "" else ts[0].text + ([' '] + Render(ts[1..]))
  }

  lemma {:induction false} NameStops(name: string, more: string)
    requires NameLength(name) == |name|
    ensures NameLength(name + ([' '] + more)) == |name|
  {
    if name == [] {
      assert name + ([' '] + more) == [' '] + more;
    } else {
      NameStops(name[1..], more);
      assert (name + ([' '] + more))[1..] == name[1..] + ([' '] + more);
    }
  }

  /** Digits are counted up to the first character that is none, within the text or after it. */
  lemma {:induction false} DigitsStop(s: string, more: string)
    ensures DigitsLength(s + ([' '] + more)) == DigitsLength(s)
  {
    if s == [] {
      assert s + ([' '] + more) == [' '] + more;
    } else if IsDigit(s[0]) {
      DigitsStop(s[1..], more);
      assert (s + ([' '] + more))[1..] == s[1..] + ([' '] + more);
    }
  }

  lemma DigitsStopAt(s: string, k: nat, more: string)
    requires k <= |s|
    ensures DigitsLength((s + ([' '] + more))[k..]) == DigitsLength(s[k..])
  {
    assert (s + ([' '] + more))[k..] == s[k..] + ([' '] + more);
    DigitsStop(s[k..], more);
  }

  lemma IntegerStops(s: string, more: string)
    requires s != [] && IntegerLength(s).Some?
    ensures IntegerLength(s + ([' '] + more)) == IntegerLength(s)
  {
    DigitsStopAt(s, if s[0] == '-' then 1 else 0, more);
  }

  lemma FractionStops(s: string, more: string)
    requires FractionLength(s).Some?
    ensures FractionLength(s + ([' '] + more)) == FractionLength(s)
  {
    if s != [] {
      DigitsStopAt(s, 1, more);
    }
  }

  lemma ExponentStops(s: string, more: string)
    requires ExponentLength(s).Some?
    ensures ExponentLength(s + ([' '] + more)) == ExponentLength(s)
  {
    if s != [] && (s[0] == 'e' || s[0] == 'E') {
      var sign := if |s| > 1 && (s[1] == '+' || s[1] == '-') then 2 else 1;
      DigitsStopAt(s, sign, more);
    }
  }

  /** A number is made of these parts, and nothing that would continue it follows. */
  predicate NumberParts(s: string, i: nat, f: nat, e: nat)
  {
    && IntegerLength(s) == Some(i) && i <= |s| && FractionLength(s[i..]) == Some(f) && i + f <= |s|
    && ExponentLength(s[i + f..]) == Some(e) && i + f + e <= |s|
    && (i + f + e < |s| ==> s[i + f + e] != '.' && !IsNameContinue(s[i + f + e]))
  }

  lemma NumberIff(s: string, i: nat, f: nat, e: nat)
    requires NumberParts(s, i, f, e)
    ensures Number(s) == Some((i + f + e, if f + e == 0 then IntToken else FloatToken))
  {
  }

  lemma NumberHasParts(s: string) returns (i: nat, f: nat, e: nat)
    requires Number(s).Some?
    ensures NumberParts(s, i, f, e)
  {
    i := IntegerLength(s).value;
    f := FractionLength(s[i..]).value;
    e := ExponentLength(s[i + f..]).value;
  }

  lemma NumberStops(s: string, more: string)
    requires s != [] && Number(s).Some? && Number(s).value.0 == |s|
    ensures Number(s + ([' '] + more)) == Number(s)
  {
    var t := s + ([' '] + more);
    var i, f, e := NumberHasParts(s);
    NumberIff(s, i, f, e);
    IntegerStops(s, more);
    assert t[i..] == s[i..] + ([' '] + more);
    FractionStops(s[i..], more);
    assert t[i + f..] == s[i + f..] + ([' '] + more);
    ExponentStops(s[i + f..], more);
    assert t[|s|] == ' ';
    NumberIff(t, i, f, e);
  }

  lemma CharacterStays(s: string, more: string)
    requires s != [] && CharacterLength(s) > 0
    ensures CharacterLength(s + more) == CharacterLength(s)
  {
    var n := CharacterLength(s);
    assert forall i :: 0 <= i < n ==> (s + more)[i] == s[i];
  }

  lemma {:induction false} StringStops(s: string, more: string)
    requires StringLength(s) == Some(|s|)
    ensures StringLength(s + more) == Some(|s|)
    decreases |s|
  {
    assert (s + more)[0] == s[0];
    if s[0] != '"' {
      var step := CharacterLength(s);
      CharacterStays(s, more);
      StringStops(s[step..], more);
      assert (s + more)[step..] == s[step..] + more;
    }
  }

  lemma PrefixStays(part: string, s: string, more: string)
    requires |part| <= |s|
    ensures part <= s <==> part <= s + more
  {
    assert (s + more)[..|part|] == s[..|part|];
  }

  lemma {:induction false} BlockIsLong(s: string)
    requires BlockLength(s).Some?
    ensures |s| >= 3 && (BlockLength(s) == Some(|s|) && |s| == 3 ==> Quotes <= s)
    decreases |s|
  {
    if !(Quotes <= s) {
      BlockIsLong(s[if ['\\'] + Quotes <= s then 4 else 1..]);
    }
  }

  lemma {:induction false} BlockStops(s: string, more: string)
    requires BlockLength(s) == Some(|s|)
    ensures BlockLength(s + more) == Some(|s|)
    decreases |s|
  {
    BlockIsLong(s);
    PrefixStays(Quotes, s, more);
    if !(Quotes <= s) {
      PrefixStays(['\\'] + Quotes, s, more);
      var step := if ['\\'] + Quotes <= s then 4 else 1;
      BlockStops(s[step..], more);
      assert (s + more)[step..] == s[step..] + more;
    }
  }

  /** A token that is read from its own text is read from the text with a space and anything after it. */
  lemma FirstIsBack(t: Token, more: string)
    requires IsToken(t)
    ensures var s := t.text + ([' '] + more); s != [] && FirstToken(s) == Some(t) && !IsIgnored(s[0]) && s[0] != '#'
  {
    var x := t.text;
    var s := x + ([' '] + more);
    assert s[0] == x[0] && s[..|x|] == x;
    if IsNameStart(x[0]) {
      NameStops(x, more);
    } else if IsPunctuator(x[0]) || "..." <= x {
      DotsStay(x, more);
    } else if IsDigit(x[0]) || x[0] == '-' {
      DotsStay(x, more);
      NumberStops(x, more);
    } else {
      DotsStay(x, more);
      QuotesStay(x, more);
    }
  }

  lemma DotsStay(x: string, more: string)
    requires x != []
    ensures "..." <= x ==> "..." <= x + ([' '] + more)
    ensures x[0] != '.' ==> !("..." <= x + ([' '] + more))
    ensures "..." <= x ==> x[0] == '.'
  {
    assert "..." == ['.', '.', '.'];
    var s := x + ([' '] + more);
    assert "..." <= s ==> s[0] == "..."[0];
  }

  lemma QuotesStay(x: string, more: string)
    requires x != [] && x[0] == '"' && FirstToken(x).Some? && FirstToken(x).value.text == x
    requires !IsNameStart(x[0]) && !IsPunctuator(x[0]) && !("..." <= x) && !IsDigit(x[0])
    ensures var s := x + ([' '] + more);
      if Quotes <= x then Quotes <= s && BlockLength(s[3..]) == Some(|x| - 3)
      else !(Quotes <= s) && StringLength(s[1..]) == Some(|x| - 1)
  {
    var s := x + ([' '] + more);
    if Quotes <= x {
      assert s[3..] == x[3..] + ([' '] + more);
      BlockStops(x[3..], [' '] + more);
    } else {
      assert s[1..] == x[1..] + ([' '] + more);
      StringStops(x[1..], [' '] + more);
      assert |x| >= 2;
      assert Quotes[2] == '"' && |s| >= 3;
      assert |x| == 2 ==> s[2] == ' ';
      assert |x| >= 3 ==> x[..3] == s[..3];
    }
  }

  lemma AfterSpace(more: string)
    ensures Tokenize([' '] + more) == Tokenize(more)
  {
    assert ([' '] + more)[1..] == more;
  }

  lemma AfterToken(s: string, t: Token, ts: Tokens)
    requires s != [] && !IsIgnored(s[0]) && s[0] != '#' && FirstToken(s) == Some(t)
    requires Tokenize(s[|t.text|..]) == Some(ts)
    ensures Tokenize(s) == Some([t] + ts)
  {
  }

  /** Tokens written one after the other with spaces are read back, whatever they are. */
  lemma {:induction false} TextRoundTrip(ts: Tokens)
    requires forall t <- ts :: IsToken(t)
    ensures Tokenize(Render(ts)) == Some(ts)
  {
    if ts != [] {
      var s, more := Render(ts), Render(ts[1..]);
      FirstIsBack(ts[0], more);
      TextRoundTrip(ts[1..]);
      assert s[|ts[0].text|..] == [' '] + more;
      AfterSpace(more);
      AfterToken(s, ts[0], ts[1..]);
      assert ts == [ts[0]] + ts[1..];
    }
  }

  // ----- every printed token is one that is read

  type Kinds = Token -> bool

  ghost predicate AllIn(ok: Kinds, ts: Tokens) { forall t <- ts :: ok(t) }

  /** `ok` holds of every token that printing uses. */
  ghost predicate Covers(ok: Kinds)
  {
    && ok(P("$")) && ok(P("(")) && ok(P(")")) && ok(P(":")) && ok(P("=")) && ok(P("@")) && ok(P("["))
    && ok(P("]")) && ok(P("{")) && ok(P("}")) && ok(P("!")) && ok(P("..."))
    && (forall name | IsValidName(name) :: ok(N(name)))
    && (forall t: Token | !t.kind.Punctuator? && IsToken(t) :: ok(t))
  }

  lemma {:induction false} NameLengthIs(s: string)
    requires forall c <- s :: IsNameContinue(c)
    ensures NameLength(s) == |s|
  {
    if s != [] {
      NameLengthIs(s[1..]);
    }
  }

  lemma NamesAreTokens(name: string)
    requires IsValidName(name)
    ensures IsToken(N(name))
  {
    NameLengthIs(name);
    assert name[..|name|] == name;
  }

  lemma PunctuationIsNoName(c: char)
    requires IsPunctuator(c)
    ensures !IsNameStart(c) && !IsIgnored(c) && c != '#'
  {
  }

  lemma OneCharacter(c: char)
    requires IsPunctuator(c)
    ensures IsToken(P([c]))
  {
    PunctuationIsNoName(c);
    assert [c][..1] == [c];
    assert FirstToken([c]) == Some(P([c]));
  }

  lemma Punctuation()
    ensures IsPunctuator('$') && IsPunctuator('(') && IsPunctuator(')') && IsPunctuator(':') && IsPunctuator('=')
    ensures IsPunctuator('@') && IsPunctuator('[') && IsPunctuator(']') && IsPunctuator('{') && IsPunctuator('}') && IsPunctuator('!')
  {
  }

  lemma DotsAreAToken()
    ensures IsToken(P("..."))
  {
    var s := "...";
    assert s[0] == '.' && s[..3] == s;
    assert !IsPunctuator('.');
  }

  lemma TokensCover()
    ensures Covers(t => IsToken(t))
  {
    Punctuation();
    OneCharacter('$');
    OneCharacter('(');
    OneCharacter(')');
    OneCharacter(':');
    OneCharacter('=');
    OneCharacter('@');
    OneCharacter('[');
    OneCharacter(']');
    OneCharacter('{');
    OneCharacter('}');
    OneCharacter('!');
    DotsAreAToken();
    forall name | IsValidName(name) ensures IsToken(N(name)) {
      NamesAreTokens(name);
    }
  }

  lemma {:induction false} ValueTokens(ok: Kinds, v: Value, constant: bool)
    requires Covers(ok) && ValidValue(v, constant)
    ensures AllIn(ok, ShowValue(v))
    decreases v, 1
  {
    match v
    case Variable(name) =>
    case Scalar(_) =>
    case ListValue(items) => ValuesTokens(ok, items, constant);
    case ObjectValue(pairs) => PairsTokens(ok, pairs, constant);
  }

  lemma {:induction false} ValuesTokens(ok: Kinds, vs: seq<Value>, constant: bool)
    requires Covers(ok) && ValidValues(vs, constant)
    ensures AllIn(ok, ShowValues(vs))
    decreases vs, 1
  {
    if vs != [] {
      ValueTokens(ok, vs[0], constant);
      ValuesTokens(ok, vs[1..], constant);
    }
  }

  lemma {:induction false} PairsTokens(ok: Kinds, ps: seq<Pair>, constant: bool)
    requires Covers(ok) && ValidPairs(ps, constant)
    ensures AllIn(ok, ShowPairs(ps)) && AllIn(ok, ShowArguments(ps))
    decreases ps, 1
  {
    if ps != [] {
      ValueTokens(ok, ps[0].value, constant);
      PairsTokens(ok, ps[1..], constant);
    }
  }

  lemma {:induction false} DirectivesTokens(ok: Kinds, ds: seq<Directive>, constant: bool)
    requires Covers(ok) && ValidDirectives(ds, constant)
    ensures AllIn(ok, ShowDirectives(ds))
    decreases |ds|
  {
    if ds != [] {
      PairsTokens(ok, ds[0].arguments, constant);
      DirectivesTokens(ok, ds[1..], constant);
    }
  }

  lemma {:induction false} TypeTokens(ok: Kinds, t: Type)
    requires Covers(ok) && ValidType(t)
    ensures AllIn(ok, ShowType(t))
    decreases t
  {
    match t
    case NamedType(name, _) =>
    case ListType(element, _) => TypeTokens(ok, element);
  }

  lemma VariableTokens(ok: Kinds, v: VariableDefinition)
    requires Covers(ok) && ValidVariable(v)
    ensures AllIn(ok, ShowVariable(v))
  {
    TypeTokens(ok, v.ty);
    if v.default.Some? {
      ValueTokens(ok, v.default.value, true);
    }
    DirectivesTokens(ok, v.directives, true);
  }

  lemma {:induction false} VariablesTokens(ok: Kinds, vs: seq<VariableDefinition>)
    requires Covers(ok) && forall v <- vs :: ValidVariable(v)
    ensures AllIn(ok, ShowVariableList(vs)) && AllIn(ok, ShowVariables(vs))
    decreases |vs|
  {
    if vs != [] {
      VariableTokens(ok, vs[0]);
      VariablesTokens(ok, vs[1..]);
    }
  }

  lemma {:induction false} SelectionTokens(ok: Kinds, w: Written)
    requires Covers(ok) && Valid(w)
    ensures AllIn(ok, Show(w))
    decreases w, 0
  {
    KeywordsAreNames();
    DirectivesTokens(ok, w.directives, false);
    match w
    case WField(alias, name, arguments, _, ws) =>
      PairsTokens(ok, arguments, false);
      SelectionsTokens(ok, ws);
    case WSpread(name, _) =>
    case WInline(cond, _, ws) =>
      SelectionsTokens(ok, ws);
  }

  lemma {:induction false} SelectionsTokens(ok: Kinds, ws: seq<Written>)
    requires Covers(ok) && AllValid(ws)
    ensures AllIn(ok, ShowAll(ws)) && AllIn(ok, ShowSet(ws))
    decreases ws, 0
  {
    if ws != [] {
      SelectionTokens(ok, ws[0]);
      SelectionsTokens(ok, ws[1..]);
    }
  }

  lemma KeywordsAreNames()
    ensures IsValidName("query") && IsValidName("mutation") && IsValidName("subscription") && IsValidName("fragment") && IsValidName("on")
  {
    assert "query" == ['q', 'u', 'e', 'r', 'y'];
    assert "mutation" == ['m', 'u', 't', 'a', 't', 'i', 'o', 'n'];
    assert "subscription" == ['s', 'u', 'b', 's', 'c', 'r', 'i', 'p', 't', 'i', 'o', 'n'];
    assert "fragment" == ['f', 'r', 'a', 'g', 'm', 'e', 'n', 't'];
    assert "on" == ['o', 'n'];
  }

  lemma Joined(ok: Kinds, a: Tokens, b: Tokens)
    ensures AllIn(ok, a) && AllIn(ok, b) ==> AllIn(ok, a + b)
  {
  }

  lemma OperationTokens(ok: Kinds, o: Definition)
    requires Covers(ok) && ValidDefinition(o) && o.WOperation?
    ensures AllIn(ok, ShowDefinition(o))
  {
    KeywordsAreNames();
    SelectionsTokens(ok, o.selections);
    VariablesTokens(ok, o.variables);
    DirectivesTokens(ok, o.directives, false);
    var sels, ds, vs := ShowSet(o.selections), ShowDirectives(o.directives), ShowVariables(o.variables);
    Joined(ok, ds, sels);
    Joined(ok, vs, ds + sels);
    var head := [N(o.kind)] + if o.name != "" then [N(o.name)] else [];
    Joined(ok, head, vs + (ds + sels));
  }

  lemma FragmentTokens(ok: Kinds, f: Definition)
    requires Covers(ok) && ValidDefinition(f) && f.WFragment?
    ensures AllIn(ok, ShowDefinition(f))
  {
    KeywordsAreNames();
    SelectionsTokens(ok, f.selections);
    DirectivesTokens(ok, f.directives, false);
    var sels, ds := ShowSet(f.selections), ShowDirectives(f.directives);
    Joined(ok, ds, sels);
    Joined(ok, [N("fragment"), N(f.name), N("on"), N(f.typeCondition)], ds + sels);
  }

  lemma DefinitionTokens(ok: Kinds, d: Definition)
    requires Covers(ok) && ValidDefinition(d)
    ensures AllIn(ok, ShowDefinition(d))
  {
    match d
    case Shorthand(ws) => SelectionsTokens(ok, ws);
    case WOperation(_, _, _, _, _) => OperationTokens(ok, d);
    case WFragment(_, _, _, _) => FragmentTokens(ok, d);
  }

  lemma {:induction false} DocumentTokens(ok: Kinds, ds: seq<Definition>)
    requires Covers(ok) && forall d <- ds :: ValidDefinition(d)
    ensures AllIn(ok, ShowDocument(ds))
  {
    if ds != [] {
      DefinitionTokens(ok, ds[0]);
      DocumentTokens(ok, ds[1..]);
    }
  }

  /** Every document of the grammar, written as text, is accepted, and what is read are its operations
      and fragments with their selections, aliases and names, in order. */
  lemma PrintedDocumentsParseBack(ds: seq<Definition>)
    requires ds != [] && forall d <- ds :: ValidDefinition(d)
    ensures Parse(Render(ShowDocument(ds))) == Some(ReadDocument(ds))
  {
    var ok: Kinds := t => IsToken(t);
    TokensCover();
    DocumentTokens(ok, ds);
    assert forall t <- ShowDocument(ds) :: ok(t);
    TextRoundTrip(ShowDocument(ds));
    DefinitionsAreRead(ds);
    assert ShowDocument(ds) != [];
  }
}
