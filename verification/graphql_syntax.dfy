/** Executable GraphQL documents: a tokenizer and a parser after sections 2.1 to 2.12 of the
    GraphQL specification (October 2021).  Argument values, directives and variable definitions
    are checked and skipped; the tree keeps what operation selection looks at. */
module GraphqlSyntax {
  import opened Wrappers

  datatype Kind = Punctuator | NameToken | IntToken | FloatToken | StringToken

  datatype Token = Token(kind: Kind, text: string)

  // ----- tokens

  predicate IsLetter(c: char) { 'a' <= c <= 'z' || 'A' <= c <= 'Z' }

  predicate IsDigit(c: char) { '0' <= c <= '9' }

  predicate IsNameStart(c: char) { IsLetter(c) || c == '_' }

  predicate IsNameContinue(c: char) { IsNameStart(c) || IsDigit(c) }

  predicate IsLineEnd(c: char) { c == '\n' || c == '\r' }

  predicate IsIgnored(c: char) { c == '\U{FEFF}' || c == '\t' || c == ' ' || IsLineEnd(c) || c == ',' }

  predicate IsPunctuator(c: char) { c in "!$&():=@[]{|}" }

  /** Number of characters of s before the first that is not part of a name. */
  function NameLength(s: string): (n: nat)
    ensures n <= |s|
  {
    if s != [] && IsNameContinue(s[0]) then 1 + NameLength(s[1..]) else 0
  }

  function DigitsLength(s: string): (n: nat)
    ensures n <= |s|
  {
    if s != [] && IsDigit(s[0]) then 1 + DigitsLength(s[1..]) else 0
  }

  function CommentLength(s: string): (n: nat)
    ensures n <= |s|
  {
    if s != [] && !IsLineEnd(s[0]) then 1 + CommentLength(s[1..]) else 0
  }

  /** An integer part: a minus sign, and zero or digits that do not start with zero. */
  function IntegerLength(s: string): (r: Option<nat>)
    ensures r.Some? ==> 0 < r.value <= |s|
  {
    var sign := if s != [] && s[0] == '-' then 1 else 0;
    var n := DigitsLength(s[sign..]);
    if n == 0 || (n > 1 && s[sign] == '0') then None else Some(sign + n)
  }

  function FractionLength(s: string): (r: Option<nat>)
    ensures r.Some? ==> r.value <= |s|
  {
    if s == [] || s[0] != '.' then Some(0)
    else if DigitsLength(s[1..]) == 0 then None
    else Some(1 + DigitsLength(s[1..]))
  }

  function ExponentLength(s: string): (r: Option<nat>)
    ensures r.Some? ==> r.value <= |s|
  {
    if s == [] || (s[0] != 'e' && s[0] != 'E') then Some(0)
    else
      var sign := if |s| > 1 && (s[1] == '+' || s[1] == '-') then 2 else 1;
      if DigitsLength(s[sign..]) == 0 then None else Some(sign + DigitsLength(s[sign..]))
  }

  /** A number at the start of s, which no digit, dot or letter may follow. */
  function Number(s: string): (r: Option<(nat, Kind)>)
    ensures r.Some? ==> 0 < r.value.0 <= |s|
  {
    var i := IntegerLength(s);
    if i.None? then None
    else
      var f := FractionLength(s[i.value..]);
      if f.None? then None
      else
        var e := ExponentLength(s[i.value + f.value..]);
        if e.None? then None
        else
          var n := i.value + f.value + e.value;
          if n < |s| && (s[n] == '.' || IsNameContinue(s[n])) then None
          else Some((n, if f.value + e.value == 0 then IntToken else FloatToken))
  }

  predicate IsHex(c: char) { IsDigit(c) || 'a' <= c <= 'f' || 'A' <= c <= 'F' }

  /** Length of a character of a string, escapes included; 0 for an escape that is none. */
  function CharacterLength(s: string): (n: nat)
    requires s != []
    ensures n <= |s|
  {
    if s[0] != '\\' then 1
    else if |s| > 1 && s[1] in "\"\\/bfnrt" then 2
    else if |s| > 5 && s[1] == 'u' && IsHex(s[2]) && IsHex(s[3]) && IsHex(s[4]) && IsHex(s[5]) then 6
    else 0
  }

  /** Length of the rest of a string, closing quote included, after its opening quote. */
  function StringLength(s: string): (r: Option<nat>)
    ensures r.Some? ==> r.value <= |s|
  {
    if s == [] || IsLineEnd(s[0]) then None
    else if s[0] == '"' then Some(1)
    else
      var step := CharacterLength(s);
      if step == 0 then None
      else
        var rest := StringLength(s[step..]);
        if rest.None? then None else Some(step + rest.value)
  }

  const Quotes: string := ['"', '"', '"']

  /** The same for a block string, after its three opening quotes. */
  function BlockLength(s: string): (r: Option<nat>)
    ensures r.Some? ==> r.value <= |s|
  {
    if s == [] then None
    else if Quotes <= s then Some(3)
    else
      var step := if ['\\'] + Quotes <= s then 4 else 1;
      var rest := BlockLength(s[step..]);
      if rest.None? then None else Some(step + rest.value)
  }

  /** The token at the start of s, where s does not start with an ignored character. */
  function FirstToken(s: string): (r: Option<Token>)
    requires s != []
    ensures r.Some? ==> r.value.text <= s && r.value.text != []
  {
    if IsNameStart(s[0]) then Some(Token(NameToken, s[..NameLength(s)]))
    else if IsPunctuator(s[0]) then Some(Token(Punctuator, s[..1]))
    else if "..." <= s then Some(Token(Punctuator, s[..3]))
    else if IsDigit(s[0]) || s[0] == '-' then
      var n := Number(s);
      if n.None? then None else Some(Token(n.value.1, s[..n.value.0]))
    else if Quotes <= s then
      var n := BlockLength(s[3..]);
      if n.None? then None else Some(Token(StringToken, s[..3 + n.value]))
    else if s[0] == '"' then
      var n := StringLength(s[1..]);
      if n.None? then None else Some(Token(StringToken, s[..1 + n.value]))
    else None
  }

  function Tokenize(s: string): Option<seq<Token>>
    decreases |s|
  {
    if s == [] then Some([])
    else if IsIgnored(s[0]) then Tokenize(s[1..])
    else if s[0] == '#' then Tokenize(s[1 + CommentLength(s[1..])..])
    else
      var t := FirstToken(s);
      if t.None? then None
      else
        var ts := Tokenize(s[|t.value.text|..]);
        if ts.None? then None else Some([t.value] + ts.value)
  }

  ghost predicate Occurs(s: string, part: string)
  {
    exists i, j :: 0 <= i <= j <= |s| && s[i..j] == part
  }

  lemma OccursLater(s: string, k: nat, part: string)
    requires k <= |s| && Occurs(s[k..], part)
    ensures Occurs(s, part)
  {
    var i, j :| 0 <= i <= j <= |s[k..]| && s[k..][i..j] == part;
    assert s[k + i..k + j] == part;
  }

  /** How many characters Tokenize reads before it goes on. */
  function Advance(s: string): (n: nat)
    requires s != []
    ensures n <= |s|
  {
    if IsIgnored(s[0]) then 1
    else if s[0] == '#' then 1 + CommentLength(s[1..])
    else
      var t := FirstToken(s);
      if t.Some? then |t.value.text| else 0
  }

  /** Every token is a piece of the source text. */
  lemma {:induction false} TokensOccur(s: string, t: Token)
    requires Tokenize(s).Some? && t in Tokenize(s).value
    ensures Occurs(s, t.text)
    decreases |s|
  {
    var n := Advance(s);
    if !IsIgnored(s[0]) && s[0] != '#' {
      var first := FirstToken(s).value;
      assert s[0..|first.text|] == first.text;
      assert Tokenize(s).value == [first] + Tokenize(s[n..]).value;
      if t != first {
        TokensOccur(s[n..], t);
        OccursLater(s, n, t.text);
      }
    } else {
      assert Tokenize(s) == Tokenize(s[n..]);
      TokensOccur(s[n..], t);
      OccursLater(s, n, t.text);
    }
  }

  // ----- the parser

  datatype Selection =
    | Field(alias: Option<string>, name: string, selections: seq<Selection>)
    | FragmentSpread(name: string)
    | InlineFragment(typeCondition: Option<string>, selections: seq<Selection>)

  /** An operation without a name has the empty name. */
  datatype Operation = Operation(kind: string, name: string, selections: seq<Selection>)

  datatype Document = Document(operations: seq<Operation>, fragments: seq<string>)

  type Tokens = seq<Token>

  predicate Is(ts: Tokens, text: string) { ts != [] && ts[0] == Token(Punctuator, text) }

  predicate IsName(ts: Tokens) { ts != [] && ts[0].kind == NameToken }

  predicate IsKeyword(ts: Tokens, text: string) { ts != [] && ts[0] == Token(NameToken, text) }

  /** rest is a proper part of ts. */
  ghost predicate Within(rest: Tokens, ts: Tokens) { |rest| < |ts| && forall t <- rest :: t in ts }

  lemma WithinIsTransitive(a: Tokens, b: Tokens, c: Tokens)
    requires (a == b || Within(a, b)) && Within(b, c)
    ensures Within(a, c)
  {
  }

  function SkipValue(ts: Tokens, constant: bool): (r: Option<Tokens>)
    ensures r.Some? ==> Within(r.value, ts)
    decreases |ts|, 0
  {
    if ts == [] then None
    else if ts[0].kind != Punctuator then Some(ts[1..])
    else if Is(ts, "$") then if !constant && IsName(ts[1..]) then Some(ts[2..]) else None
    else if Is(ts, "[") then SkipList(ts[1..], constant)
    else if Is(ts, "{") then SkipObject(ts[1..], constant)
    else None
  }

  function SkipList(ts: Tokens, constant: bool): (r: Option<Tokens>)
    ensures r.Some? ==> Within(r.value, ts)
    decreases |ts|, 1
  {
    if Is(ts, "]") then Some(ts[1..])
    else
      var r := SkipValue(ts, constant);
      if r.None? then None else SkipList(r.value, constant)
  }

  function SkipObject(ts: Tokens, constant: bool): (r: Option<Tokens>)
    ensures r.Some? ==> Within(r.value, ts)
    decreases |ts|, 1
  {
    if Is(ts, "}") then Some(ts[1..])
    else
      var r := SkipPair(ts, constant);
      if r.None? then None else SkipObject(r.value, constant)
  }

  /** name : value */
  function SkipPair(ts: Tokens, constant: bool): (r: Option<Tokens>)
    ensures r.Some? ==> Within(r.value, ts)
    decreases |ts|, 0
  {
    if IsName(ts) && Is(ts[1..], ":") then SkipValue(ts[2..], constant) else None
  }

  /** One or more pairs and the closing parenthesis. */
  function SkipPairs(ts: Tokens, constant: bool): (r: Option<Tokens>)
    ensures r.Some? ==> Within(r.value, ts)
    decreases |ts|
  {
    var r := SkipPair(ts, constant);
    if r.None? then None
    else if Is(r.value, ")") then Some(r.value[1..])
    else SkipPairs(r.value, constant)
  }

  function SkipArguments(ts: Tokens, constant: bool): (r: Option<Tokens>)
    ensures r.Some? ==> r.value == ts || Within(r.value, ts)
  {
    if Is(ts, "(") then SkipPairs(ts[1..], constant) else Some(ts)
  }

  function SkipDirectives(ts: Tokens, constant: bool): (r: Option<Tokens>)
    ensures r.Some? ==> r.value == ts || Within(r.value, ts)
    decreases |ts|
  {
    if !Is(ts, "@") then Some(ts)
    else if !IsName(ts[1..]) then None
    else
      var r := SkipArguments(ts[2..], constant);
      if r.None? then None else SkipDirectives(r.value, constant)
  }

  function SkipType(ts: Tokens): (r: Option<Tokens>)
    ensures r.Some? ==> Within(r.value, ts)
    decreases |ts|, 1
  {
    var inner := SkipNullableType(ts);
    if inner.Some? && Is(inner.value, "!") then Some(inner.value[1..]) else inner
  }

  function SkipNullableType(ts: Tokens): (r: Option<Tokens>)
    ensures r.Some? ==> Within(r.value, ts)
    decreases |ts|, 0
  {
    if IsName(ts) then Some(ts[1..])
    else if Is(ts, "[") then
      var e := SkipType(ts[1..]);
      if e.Some? && Is(e.value, "]") then
        WithinIsTransitive(e.value, ts[1..], ts);
        WithinIsTransitive(e.value[1..], e.value, ts);
        Some(e.value[1..])
      else None
    else None
  }

  /** $name : type = default directives */
  function SkipVariable(ts: Tokens): (r: Option<Tokens>)
    ensures r.Some? ==> Within(r.value, ts)
  {
    if !(Is(ts, "$") && IsName(ts[1..]) && Is(ts[2..], ":")) then None
    else
      var t := SkipType(ts[3..]);
      if t.None? then None
      else
        var v := if Is(t.value, "=") then SkipValue(t.value[1..], true) else t;
        if v.None? then None
        else
          WithinIsTransitive(t.value, ts[3..], ts);
          WithinIsTransitive(v.value, if Is(t.value, "=") then t.value else ts[3..], ts);
          SkipDirectives(v.value, true)
  }

  /** One or more variable definitions and the closing parenthesis. */
  function SkipVariables(ts: Tokens): (r: Option<Tokens>)
    ensures r.Some? ==> Within(r.value, ts)
    decreases |ts|
  {
    var v := SkipVariable(ts);
    if v.None? then None
    else if Is(v.value, ")") then Some(v.value[1..])
    else SkipVariables(v.value)
  }

  /** Top-level fields are named by tokens of the source. */
  ghost predicate NamedBy(selections: seq<Selection>, ts: Tokens)
  {
    forall s <- selections :: s.Field? ==> Token(NameToken, s.name) in ts
  }

  function ParseSelectionSet(ts: Tokens): (r: Option<(seq<Selection>, Tokens)>)
    ensures r.Some? ==> NamedBy(r.value.0, ts) && Within(r.value.1, ts) && r.value.0 != []
    decreases |ts|, 0
  {
    if Is(ts, "{") then ParseSelections(ts[1..]) else None
  }

  /** One or more selections and the closing brace. */
  function ParseSelections(ts: Tokens): (r: Option<(seq<Selection>, Tokens)>)
    ensures r.Some? ==> NamedBy(r.value.0, ts) && Within(r.value.1, ts) && r.value.0 != []
    decreases |ts|, 2
  {
    var first := ParseSelection(ts);
    if first.None? then None
    else if Is(first.value.1, "}") then Some(([first.value.0], first.value.1[1..]))
    else
      var more := ParseSelections(first.value.1);
      if more.None? then None else Some(([first.value.0] + more.value.0, more.value.1))
  }

  function ParseSelection(ts: Tokens): (r: Option<(Selection, Tokens)>)
    ensures r.Some? ==> NamedBy([r.value.0], ts) && Within(r.value.1, ts)
    decreases |ts|, 1
  {
    if IsName(ts) then
      if Is(ts[1..], ":") then
        if IsName(ts[2..]) then ParseFieldRest(Some(ts[0].text), ts[2].text, ts[3..], ts) else None
      else ParseFieldRest(None, ts[0].text, ts[1..], ts)
    else if Is(ts, "...") then
      if IsName(ts[1..]) && !IsKeyword(ts[1..], "on") then
        var d := SkipDirectives(ts[2..], false);
        if d.None? then None else Some((FragmentSpread(ts[1].text), d.value))
      else
        var on := IsKeyword(ts[1..], "on");
        if on && !IsName(ts[2..]) then None
        else
          var d := SkipDirectives(if on then ts[3..] else ts[1..], false);
          if d.None? then None
          else
            var s := ParseSelectionSet(d.value);
            if s.None? then None
            else Some((InlineFragment(if on then Some(ts[2].text) else None, s.value.0), s.value.1))
    else None
  }

  /** Arguments, directives and the selection set of a field whose name was read from `all`. */
  function ParseFieldRest(alias: Option<string>, name: string, ts: Tokens, ghost all: Tokens): (r: Option<(Selection, Tokens)>)
    requires |ts| < |all| && (forall t <- ts :: t in all) && Token(NameToken, name) in all
    ensures r.Some? ==> NamedBy([r.value.0], all) && Within(r.value.1, all)
    decreases |ts|, 1
  {
    var a := SkipArguments(ts, false);
    if a.None? then None
    else
      var d := SkipDirectives(a.value, false);
      if d.None? then None
      else if !Is(d.value, "{") then Some((Field(alias, name, []), d.value))
      else
        var s := ParseSelectionSet(d.value);
        if s.None? then None else Some((Field(alias, name, s.value.0), s.value.1))
  }

  predicate IsOperationKind(text: string) { text in ["query", "mutation", "subscription"] }

  function ParseOperation(ts: Tokens): (r: Option<(Operation, Tokens)>)
    ensures r.Some? ==> NamedBy(r.value.0.selections, ts) && Within(r.value.1, ts)
  {
    if Is(ts, "{") then
      var s := ParseSelectionSet(ts);
      if s.None? then None else Some((Operation("query", "", s.value.0), s.value.1))
    else if IsName(ts) && IsOperationKind(ts[0].text) then
      var named := IsName(ts[1..]);
      var t1 := if named then ts[2..] else ts[1..];
      var v := if Is(t1, "(") then SkipVariables(t1[1..]) else Some(t1);
      if v.None? then None
      else
        var d := SkipDirectives(v.value, false);
        if d.None? then None
        else
          var s := ParseSelectionSet(d.value);
          if s.None? then None
          else Some((Operation(ts[0].text, if named then ts[1].text else "", s.value.0), s.value.1))
    else None
  }

  function ParseFragment(ts: Tokens): (r: Option<(string, Tokens)>)
    ensures r.Some? ==> Within(r.value.1, ts)
  {
    if IsKeyword(ts, "fragment") && IsName(ts[1..]) && !IsKeyword(ts[1..], "on") && IsKeyword(ts[2..], "on") && IsName(ts[3..]) then
      var d := SkipDirectives(ts[4..], false);
      if d.None? then None
      else
        var s := ParseSelectionSet(d.value);
        if s.None? then None else Some((ts[1].text, s.value.1))
    else None
  }

  function ParseDefinitions(ts: Tokens): (r: Option<Document>)
    ensures r.Some? ==> forall op <- r.value.operations :: NamedBy(op.selections, ts)
    decreases |ts|
  {
    if ts == [] then Some(Document([], []))
    else if IsKeyword(ts, "fragment") then
      var f := ParseFragment(ts);
      if f.None? then None
      else
        var rest := ParseDefinitions(f.value.1);
        if rest.None? then None else Some(rest.value.(fragments := [f.value.0] + rest.value.fragments))
    else
      var o := ParseOperation(ts);
      if o.None? then None
      else
        var rest := ParseDefinitions(o.value.1);
        if rest.None? then None else Some(rest.value.(operations := [o.value.0] + rest.value.operations))
  }

  /** A document is one or more definitions. */
  function Parse(source: string): Option<Document>
  {
    var ts := Tokenize(source);
    if ts.None? || ts.value == [] then None else ParseDefinitions(ts.value)
  }

  /** The name of every top-level field of every operation occurs in the source text. */
  lemma FieldNamesOccur(source: string, op: Operation, s: Selection)
    requires Parse(source).Some? && op in Parse(source).value.operations && s in op.selections && s.Field?
    ensures Occurs(source, s.name)
  {
    var ts := Tokenize(source).value;
    assert NamedBy(op.selections, ts);
    TokensOccur(source, Token(NameToken, s.name));
  }
}
