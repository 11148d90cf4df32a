/** The two scanners that turn an assert statement into its bare expression
    (crates/firstpass-bench/src/dataset.rs, scripts/export-vrbench-tasks.py). */
module Scanner {
  import opened Matrix

  // ----- the Rust scanner

  /** `quote` is the delimiter of the string literal the scan is inside of. */
  datatype State = State(depth: int, quote: Option<char>, escape: bool)

  const START := State(0, None, false)

  predicate IsQuote(c: char) { c == '\'' || c == '"' }

  predicate Opens(c: char) { c == '(' || c == '[' || c == '{' }

  predicate Closes(c: char) { c == ')' || c == ']' || c == '}' }

  /** A comma that separates the expression from its message. */
  predicate Stops(st: State, c: char) {
    st.quote.None? && c == ',' && st.depth == 0
  }

  function Step(st: State, c: char): State {
    if st.quote.Some? then
      if st.escape then st.(escape := false)
      else if c == '\\' then st.(escape := true)
      else if c == st.quote.value then st.(quote := None)
      else st
    else if IsQuote(c) then st.(quote := Some(c))
    else if Opens(c) then st.(depth := st.depth + 1)
    else if Closes(c) then st.(depth := st.depth - 1)
    else st
  }

  function Fold(st: State, s: string): State
    decreases |s|
  {
    if s == [] then st else Fold(Step(st, s[0]), s[1..])
  }

  function FirstComma(st: State, s: string): Option<nat>
    decreases |s|
  {
    if s == [] then None
    else if Stops(st, s[0]) then Some(0)
    else
      var rest := FirstComma(Step(st, s[0]), s[1..]);
      if rest.Some? then Some(rest.value + 1) else None
  }

  lemma CommaStep(st: State, s: string, i: nat)
    requires i < |s|
    ensures var rest := FirstComma(Step(st, s[i]), s[i + 1..]);
            FirstComma(st, s[i..])
            == if Stops(st, s[i]) then Some(0) else if rest.Some? then Some(rest.value + 1) else None
  {
    assert s[i..][0] == s[i] && s[i..][1..] == s[i + 1..];
  }

  lemma CommaOfNothing(st: State, s: string)
    ensures FirstComma(st, s[|s|..]) == None
  {}

  method TopLevelComma(s: string) returns (r: Option<nat>)
    ensures r == FirstComma(START, s)
  {
    hide FirstComma;
    var depth, inString: Option<char>, escape := 0, None, false;
    assert s[0..] == s;
    for i := 0 to |s|
      invariant var rest := FirstComma(State(depth, inString, escape), s[i..]);
                FirstComma(START, s) == if rest.Some? then Some(rest.value + i) else None
    {
      var c := s[i];
      CommaStep(State(depth, inString, escape), s, i);
      if inString.Some? {
        if escape {
          escape := false;
        } else if c == '\\' {
          escape := true;
        } else if c == inString.value {
          inString := None;
        }
        continue;
      }
      match c {
        case '\'' => inString := Some(c);
        case '"' => inString := Some(c);
        case '(' => depth := depth + 1;
        case '[' => depth := depth + 1;
        case '{' => depth := depth + 1;
        case ')' => depth := depth - 1;
        case ']' => depth := depth - 1;
        case '}' => depth := depth - 1;
        case _ =>
          if c == ',' && depth == 0 {
            return Some(i);
          }
      }
    }
    CommaOfNothing(State(depth, inString, escape), s);
    r := None;
  }

  lemma {:induction false} FoldAppend(st: State, a: string, b: string)
    ensures Fold(st, a + b) == Fold(Fold(st, a), b)
    decreases |a|
  {
    if a == [] {
      assert a + b == b;
    } else {
      assert (a + b)[1..] == a[1..] + b;
      FoldAppend(Step(st, a[0]), a[1..], b);
    }
  }

  /** The comma found is the first character that is a comma outside all brackets and string literals. */
  lemma {:induction false} FirstCommaIsFirst(st: State, s: string)
    ensures var r := FirstComma(st, s);
            && (r.Some? ==> r.value < |s| && Stops(Fold(st, s[..r.value]), s[r.value]))
            && forall j :: 0 <= j < (if r.Some? then r.value else |s|) ==> !Stops(Fold(st, s[..j]), s[j])
    decreases |s|
  {
    if s != [] && !Stops(st, s[0]) {
      FirstCommaIsFirst(Step(st, s[0]), s[1..]);
      forall j | 0 < j < |s| ensures Fold(st, s[..j]) == Fold(Step(st, s[0]), s[1..][..j - 1]) {
        assert s[..j][1..] == s[1..][..j - 1];
      }
    }
  }

  // ----- whitespace

  predicate IsSpace(c: char) { c == ' ' || '\t' <= c <= '\r' }

  predicate AllSpace(s: string) {
    forall i :: 0 <= i < |s| ==> IsSpace(s[i])
  }

  function TrimStart(s: string): string {
    if s != [] && IsSpace(s[0]) then TrimStart(s[1..]) else s
  }

  function TrimEnd(s: string): string {
    if s != [] && IsSpace(s[|s| - 1]) then TrimEnd(s[..|s| - 1]) else s
  }

  function Trim(s: string): string { TrimEnd(TrimStart(s)) }

  /** Neither empty nor padded with whitespace. */
  predicate Snug(s: string) {
    s != [] && !IsSpace(s[0]) && !IsSpace(s[|s| - 1])
  }

  lemma {:induction false} TrimStartPadding(pad: string, s: string)
    requires AllSpace(pad) && (s == [] || !IsSpace(s[0]))
    ensures TrimStart(pad + s) == s
    decreases |pad|
  {
    if pad == [] {
      assert pad + s == s;
    } else {
      assert (pad + s)[1..] == pad[1..] + s;
      TrimStartPadding(pad[1..], s);
    }
  }

  lemma {:induction false} TrimEndPadding(s: string, pad: string)
    requires AllSpace(pad) && (s == [] || !IsSpace(s[|s| - 1]))
    ensures TrimEnd(s + pad) == s
    decreases |pad|
  {
    if pad == [] {
      assert s + pad == s;
    } else {
      assert (s + pad)[..|s + pad| - 1] == s + pad[..|pad| - 1];
      TrimEndPadding(s, pad[..|pad| - 1]);
    }
  }

  /** Trimming on the right stops at the last visible character, so a visible front part survives. */
  lemma {:induction false} TrimEndKeepsFront(s: string, tail: string)
    requires s != [] && !IsSpace(s[|s| - 1])
    ensures TrimEnd(s + tail) == s + TrimEnd(tail)
    decreases |tail|
  {
    if tail == [] {
      assert s + tail == s;
      assert s + TrimEnd(tail) == s;
    } else if IsSpace(tail[|tail| - 1]) {
      assert (s + tail)[..|s + tail| - 1] == s + tail[..|tail| - 1];
      TrimEndKeepsFront(s, tail[..|tail| - 1]);
    }
  }

  // ----- convert_assert, Rust

  datatype Converted = Expr(text: string) | NotAnAssert | EmptyExpression

  method ConvertAssert(stmt: string) returns (r: Converted)
    ensures r == ConvertedAssert(stmt)
  {
    var s := Trim(stmt);
    if !("assert" <= s) {
      return NotAnAssert;
    }
    var rest := TrimStart(s[|"assert"|..]);
    if rest == [] {
      return EmptyExpression;
    }
    var idx := TopLevelComma(rest);
    FirstCommaIsFirst(START, rest);
    var expr := if idx.Some? then TrimEnd(rest[..idx.value]) else rest;
    r := if expr == [] then EmptyExpression else Expr(expr);
  }

  function ConvertedAssert(stmt: string): Converted {
    var s := Trim(stmt);
    if !("assert" <= s) then NotAnAssert
    else
      var rest := TrimStart(s[|"assert"|..]);
      if rest == [] then EmptyExpression
      else
        var idx := FirstComma(START, rest);
        FirstCommaIsFirst(START, rest);
        var expr := if idx.Some? then TrimEnd(rest[..idx.value]) else rest;
        if expr == [] then EmptyExpression else Expr(expr)
  }

  // ----- expressions and how they are written

  datatype Chunk = Plain(c: char) | Escaped(c: char)

  /** Python expressions as far as the scanner can tell: runs of harmless characters, string literals
      with escapes, brackets around comma-separated parts, and any of these side by side. */
  datatype PyExpr =
    | Atom(text: string)
    | Literal(quote: char, body: seq<Chunk>)
    | Bracketed(kind: nat, parts: seq<PyExpr>)
    | Beside(items: seq<PyExpr>)

  ghost predicate Valid(e: PyExpr) {
    match e
    case Atom(text) => forall i :: 0 <= i < |text| ==>
                         !IsQuote(text[i]) && !Opens(text[i]) && !Closes(text[i]) && text[i] != ','
    case Literal(q, body) => IsQuote(q) && forall i :: 0 <= i < |body| && body[i].Plain? ==>
                               body[i].c != q && body[i].c != '\\'
    case Bracketed(kind, parts) => kind < 3 && forall p :: p in parts ==> Valid(p)
    case Beside(items) => forall p :: p in items ==> Valid(p)
  }

  function PrintBody(body: seq<Chunk>): string {
    if body == [] then []
    else (match body[0] case Plain(c) => [c] case Escaped(c) => ['\\', c]) + PrintBody(body[1..])
  }

  function OpenOf(kind: nat): char { if kind == 0 then '(' else if kind == 1 then '[' else '{' }

  function CloseOf(kind: nat): char { if kind == 0 then ')' else if kind == 1 then ']' else '}' }

  function Print(e: PyExpr): string
    decreases e, 0
  {
    match e
    case Atom(text) => text
    case Literal(q, body) => [q] + PrintBody(body) + [q]
    case Bracketed(kind, parts) => [OpenOf(kind)] + PrintAll(parts, ", ") + [CloseOf(kind)]
    case Beside(items) => PrintAll(items, "")
  }

  function PrintAll(es: seq<PyExpr>, sep: string): string
    decreases es, 1
  {
    if es == [] then []
    else if |es| == 1 then Print(es[0])
    else Print(es[0]) + sep + PrintAll(es[1..], sep)
  }

  /** Scanning `s` from a state outside any literal leads back to it without meeting a separator. */
  ghost predicate Transparent(depth: int, s: string) {
    var st := State(depth, None, false);
    Fold(st, s) == st && FirstComma(st, s).None?
  }

  lemma {:induction false} NoCommaAppend(st: State, a: string, b: string)
    requires FirstComma(st, a).None?
    ensures var rest := FirstComma(Fold(st, a), b);
            FirstComma(st, a + b) == if rest.Some? then Some(|a| + rest.value) else None
    decreases |a|
  {
    if a == [] {
      assert a + b == b;
    } else {
      assert (a + b)[1..] == a[1..] + b;
      NoCommaAppend(Step(st, a[0]), a[1..], b);
    }
  }

  lemma TransparentAppend(depth: int, a: string, b: string)
    requires Transparent(depth, a) && Transparent(depth, b)
    ensures Transparent(depth, a + b)
  {
    var st := State(depth, None, false);
    FoldAppend(st, a, b);
    NoCommaAppend(st, a, b);
  }

  lemma {:induction false} AtomTransparent(depth: int, text: string)
    requires Valid(Atom(text))
    ensures Transparent(depth, text)
    decreases |text|
  {
    if text != [] {
      assert Valid(Atom(text[1..]));
      AtomTransparent(depth, text[1..]);
    }
  }

  /** Inside a literal the whole body is skipped, escapes and all. */
  lemma {:induction false} BodySkipped(depth: int, q: char, body: seq<Chunk>)
    requires Valid(Literal(q, body))
    ensures var st := State(depth, Some(q), false);
            Fold(st, PrintBody(body)) == st && FirstComma(st, PrintBody(body)).None?
    decreases |body|
  {
    if body != [] {
      assert Valid(Literal(q, body[1..]));
      BodySkipped(depth, q, body[1..]);
      var st := State(depth, Some(q), false);
      var head := match body[0] case Plain(c) => [c] case Escaped(c) => ['\\', c];
      ChunkSkipped(st, q, body[0]);
      FoldAppend(st, head, PrintBody(body[1..]));
      NoCommaAppend(st, head, PrintBody(body[1..]));
    }
  }

  lemma ChunkSkipped(st: State, q: char, chunk: Chunk)
    requires st.quote == Some(q) && !st.escape
    requires chunk.Plain? ==> chunk.c != q && chunk.c != '\\'
    ensures var head := match chunk case Plain(c) => [c] case Escaped(c) => ['\\', c];
            Fold(st, head) == st && FirstComma(st, head).None?
  {
    match chunk
    case Plain(c) =>
      assert [c][1..] == [];
    case Escaped(c) => TwoSteps(st, '\\', c);
  }

  lemma TwoSteps(st: State, a: char, b: char)
    requires !Stops(st, a) && !Stops(Step(st, a), b)
    ensures Fold(st, [a, b]) == Step(Step(st, a), b) && FirstComma(st, [a, b]).None?
  {
    assert [a, b][1..] == [b] && [b][1..] == [];
    assert Fold(Step(st, a), [b]) == Step(Step(st, a), b) && FirstComma(Step(st, a), [b]).None?;
  }

  lemma Wrapped(before: State, inside: State, open: char, middle: string, close: char)
    requires !Stops(before, open) && Step(before, open) == inside
    requires Fold(inside, middle) == inside && FirstComma(inside, middle).None?
    requires !Stops(inside, close) && Step(inside, close) == before
    ensures Fold(before, [open] + middle + [close]) == before
    ensures FirstComma(before, [open] + middle + [close]).None?
  {
    var s := [open] + middle + [close];
    assert s[1..] == middle + [close] && [close][1..] == [];
    FoldAppend(inside, middle, [close]);
    NoCommaAppend(inside, middle, [close]);
  }

  lemma SeparatorTransparent(depth: int, sep: string)
    requires sep == "" || (sep == ", " && depth != 0)
    ensures Transparent(depth, sep)
  {
    if sep == ", " {
      TwoSteps(State(depth, None, false), ',', ' ');
      assert sep == [',', ' '];
    }
  }

  /** A written expression is transparent to the scan at any depth it can occur at. */
  lemma {:induction false} PrintTransparent(depth: nat, e: PyExpr)
    requires Valid(e)
    ensures Transparent(depth, Print(e))
    decreases e, 0
  {
    var st := State(depth, None, false);
    match e
    case Atom(text) => AtomTransparent(depth, text);
    case Literal(q, body) =>
      BodySkipped(depth, q, body);
      Wrapped(st, State(depth, Some(q), false), q, PrintBody(body), q);
    case Bracketed(kind, parts) =>
      PrintAllTransparent(depth + 1, parts, ", ");
      Wrapped(st, State(depth + 1, None, false), OpenOf(kind), PrintAll(parts, ", "), CloseOf(kind));
    case Beside(items) => PrintAllTransparent(depth, items, "");
  }

  lemma {:induction false} PrintAllTransparent(depth: nat, es: seq<PyExpr>, sep: string)
    requires forall e :: e in es ==> Valid(e)
    requires sep == "" || (sep == ", " && depth != 0)
    ensures Transparent(depth, PrintAll(es, sep))
    decreases es, 1
  {
    if es != [] {
      PrintTransparent(depth, es[0]);
      if |es| > 1 {
        PrintAllTransparent(depth, es[1..], sep);
        SeparatorTransparent(depth, sep);
        TransparentAppend(depth, Print(es[0]), sep);
        TransparentAppend(depth, Print(es[0]) + sep, PrintAll(es[1..], sep));
      }
    }
  }

  lemma SeparatorFound(text: string, message: string)
    requires Transparent(0, text)
    ensures FirstComma(START, text + "," + message) == Some(|text|)
  {
    NoCommaAppend(START, text, "," + message);
    assert text + "," + message == text + ("," + message);
  }

  /** Writing an assert statement with any message and any padding and converting it gives the
      expression back. */
  lemma RustRoundTrip(e: PyExpr, lead: string, gap: string, message: string)
    requires Valid(e) && Snug(Print(e)) && AllSpace(lead) && AllSpace(gap)
    ensures ConvertedAssert(lead + "assert" + gap + Print(e) + "," + message) == Expr(Print(e))
  {
    hide FirstComma, TrimStart, TrimEnd;
    var text := Print(e);
    var rest := text + "," + TrimEnd(message);
    PrintTransparent(0, e);
    SeparatorFound(text, TrimEnd(message));
    TrimmedMessage(lead, gap, text, message);
    StripKeyword(gap, rest, lead + "assert" + gap + text + "," + message);
    assert rest[..|text|] == text;
    TrimEndPadding(text, "");
    assert text + "" == text;
  }

  lemma TrimmedMessage(lead: string, gap: string, text: string, message: string)
    requires AllSpace(lead)
    ensures Trim(lead + "assert" + gap + text + "," + message) == "assert" + gap + (text + "," + TrimEnd(message))
  {
    hide TrimStart, TrimEnd;
    var front := "assert" + gap + text + ",";
    TrimStartPadding(lead, front + message);
    TrimEndKeepsFront(front, message);
    assert lead + (front + message) == lead + "assert" + gap + text + "," + message;
    assert front + TrimEnd(message) == "assert" + gap + (text + "," + TrimEnd(message));
  }

  /** The same without a message. */
  lemma RustRoundTripBare(e: PyExpr, lead: string, gap: string)
    requires Valid(e) && Snug(Print(e)) && AllSpace(lead) && AllSpace(gap)
    ensures ConvertedAssert(lead + "assert" + gap + Print(e)) == Expr(Print(e))
  {
    hide FirstComma, TrimStart, TrimEnd;
    var text := Print(e);
    PrintTransparent(0, e);
    TrimStartPadding(lead, "assert" + gap + text);
    assert lead + ("assert" + gap + text) == lead + "assert" + gap + text;
    TrimEndPadding("assert" + gap + text, "");
    assert "assert" + gap + text + "" == "assert" + gap + text;
    StripKeyword(gap, text, lead + "assert" + gap + text);
  }

  /** What is left to scan once padding and keyword are gone. */
  lemma StripKeyword(gap: string, rest: string, stmt: string)
    requires AllSpace(gap) && rest != [] && !IsSpace(rest[0])
    requires Trim(stmt) == "assert" + gap + rest
    ensures "assert" <= Trim(stmt) && TrimStart(Trim(stmt)[|"assert"|..]) == rest
  {
    assert Trim(stmt)[|"assert"|..] == gap + rest;
    TrimStartPadding(gap, rest);
  }

  /** What is no assert: any statement that, leading space aside, does not begin with the keyword. */
  lemma RejectsOtherStatements(lead: string, stmt: string)
    requires AllSpace(lead) && (stmt == [] || !IsSpace(stmt[0]))
    ensures ConvertedAssert(lead + stmt) == NotAnAssert <==> !("assert" <= stmt)
  {
    hide TrimStart, TrimEnd, FirstComma;
    TrimStartPadding(lead, stmt);
    TrimEndFront(stmt);
    if "assert" <= stmt {
      TrimEndKeepsFront("assert", stmt[6..]);
      assert stmt == "assert" + stmt[6..];
    }
  }

  lemma {:induction false} TrimEndFront(s: string)
    ensures TrimEnd(s) <= s
  {
    if s != [] && IsSpace(s[|s| - 1]) {
      TrimEndFront(s[..|s| - 1]);
    }
  }

  /** An assert without an expression, with a message or without one, is refused as empty. */
  lemma RefusesEmptyExpressions(lead: string, gap: string, message: string)
    requires AllSpace(lead) && AllSpace(gap)
    ensures ConvertedAssert(lead + "assert" + gap) == EmptyExpression
    ensures ConvertedAssert(lead + "assert" + gap + "," + message) == EmptyExpression
  {
    hide FirstComma, TrimStart, TrimEnd;
    NothingTrimmed();
    TrimStartPadding(lead, "assert" + gap);
    TrimEndPadding("assert", gap);
    assert lead + "assert" + gap == lead + ("assert" + gap);
    assert "assert"[6..] == "";
    TrimmedMessage(lead, gap, "", message);
    assert "" + "," == "," && gap + "" == gap;
    assert lead + "assert" + gap + "" + "," + message == lead + "assert" + gap + "," + message;
    StripKeyword(gap, "" + "," + TrimEnd(message), lead + "assert" + gap + "," + message);
    NothingBefore(message);
  }

  lemma NothingTrimmed()
    ensures TrimStart("") == "" && TrimEnd("") == ""
  {}

  lemma NothingBefore(message: string)
    ensures FirstComma(START, "" + "," + TrimEnd(message)) == Some(0)
  {
    assert ("" + "," + TrimEnd(message))[0] == ',';
  }

  /** Every space character is skipped before the keyword and after it. */
  lemma SpacesAreSkipped(c: char)
    requires c in [' ', '\t', '\n', 11 as char, 12 as char, '\r']
    ensures ConvertedAssert([c] + "assert" + [c] + "x") == Expr("x")
  {
    hide ConvertedAssert;
    assert IsSpace(c);
    var e := Atom("x");
    assert Valid(e) && Print(e) == "x";
    RustRoundTripBare(e, [c], [c]);
  }

  /** A literal or a pair of brackets, with the delimiters written out. */
  ghost predicate Delimits(open: char, close: char) {
    || (open == '\'' && close == '\'') || (open == '"' && close == '"')
    || (open == '(' && close == ')') || (open == '[' && close == ']') || (open == '{' && close == '}')
  }

  lemma DelimitersStep(open: char, close: char)
    requires Delimits(open, close)
    ensures var inside := Step(START, open);
            && !Stops(START, open) && !Stops(inside, ',') && Step(inside, ',') == inside
            && !Stops(inside, close) && Step(inside, close) == START && Stops(START, ',')
  {}

  /** Either quote hides a comma, and each of the three brackets does. */
  lemma QuotesAndBracketsHide(open: char, close: char)
    requires Delimits(open, close)
    ensures FirstComma(START, [open, ',', close, ',']) == Some(3)
  {
    hide FirstComma, Step, Stops, Delimits;
    var s, inside := [open, ',', close, ','], Step(START, open);
    DelimitersStep(open, close);
    assert s[0..] == s;
    CommaStep(START, s, 0);
    CommaStep(inside, s, 1);
    CommaStep(inside, s, 2);
    CommaStep(START, s, 3);
  }

  // ----- the Python scanner

  /** `prev` is the character just read, nothing at the start. */
  datatype PyState = PyState(depth: int, quote: Option<char>, prev: Option<char>)

  const PY_START := PyState(0, None, None)

  predicate PyStops(st: PyState, c: char) {
    st.quote.None? && c == ',' && st.depth == 0
  }

  function PyStep(st: PyState, c: char): PyState {
    if st.quote.Some? then
      if c == st.quote.value && st.prev != Some('\\') then PyState(st.depth, None, Some(c))
      else PyState(st.depth, st.quote, Some(c))
    else if IsQuote(c) then PyState(st.depth, Some(c), Some(c))
    else if Opens(c) then PyState(st.depth + 1, None, Some(c))
    else if Closes(c) then PyState(st.depth - 1, None, Some(c))
    else PyState(st.depth, None, Some(c))
  }

  function PyFold(st: PyState, s: string): PyState
    decreases |s|
  {
    if s == [] then st else PyStep(PyFold(st, s[..|s| - 1]), s[|s| - 1])
  }

  /** The first top-level comma from position `i` on, as the Python loop meets it. */
  function PyFirstComma(s: string, i: nat): Option<nat>
    requires i <= |s|
    decreases |s| - i
  {
    if i == |s| then None
    else if PyStops(PyFold(PY_START, s[..i]), s[i]) then Some(i)
    else PyFirstComma(s, i + 1)
  }

  function PyBody(case_: string): string {
    var s := Trim(case_);
    if "assert " <= s then s[|"assert "|..]
    else if "assert(" <= s then s[|"assert"|..]
    else s
  }

  function PyConverted(case_: string): string {
    var s := PyBody(case_);
    var idx := PyFirstComma(s, 0);
    PyCommaInRange(s, 0);
    if idx.Some? then Trim(s[..idx.value]) else Trim(s)
  }

  lemma {:induction false} PyCommaInRange(s: string, i: nat)
    requires i <= |s|
    ensures var r := PyFirstComma(s, i);
            && (r.Some? ==> i <= r.value < |s| && PyStops(PyFold(PY_START, s[..r.value]), s[r.value]))
            && forall j :: i <= j < (if r.Some? then r.value else |s|) ==> !PyStops(PyFold(PY_START, s[..j]), s[j])
    decreases |s| - i
  {
    if i < |s| && !PyStops(PyFold(PY_START, s[..i]), s[i]) {
      PyCommaInRange(s, i + 1);
    }
  }

  lemma PyFoldNothing(s: string)
    ensures PyFold(PY_START, s[..0]) == PY_START && PyFirstComma(s, |s|) == None
  {}

  lemma PyCommaStep(s: string, i: nat)
    requires i < |s|
    ensures PyFirstComma(s, i) == if PyStops(PyFold(PY_START, s[..i]), s[i]) then Some(i) else PyFirstComma(s, i + 1)
  {}

  method PyConvertAssert(case_: string) returns (r: string)
    ensures r == PyConverted(case_)
  {
    hide PyFold, PyFirstComma, Trim;
    var s := Trim(case_);
    if "assert " <= s {
      s := s[|"assert "|..];
    } else if "assert(" <= s {
      s := s[|"assert"|..];
    }
    PyFoldNothing(s);
    var depth, quote: Option<char>, prev: Option<char> := 0, None, None;
    for i := 0 to |s|
      invariant PyFold(PY_START, s[..i]) == PyState(depth, quote, prev)
      invariant PyFirstComma(s, 0) == PyFirstComma(s, i)
    {
      var ch := s[i];
      PyFoldPush(s, i);
      PyCommaStep(s, i);
      if quote.Some? {
        if ch == quote.value && prev != Some('\\') {
          quote := None;
        }
      } else if ch == '"' || ch == '\'' {
        quote := Some(ch);
      } else if ch == '(' || ch == '[' || ch == '{' {
        depth := depth + 1;
      } else if ch == ')' || ch == ']' || ch == '}' {
        depth := depth - 1;
      } else if ch == ',' && depth == 0 {
        return Trim(s[..i]);
      }
      prev := Some(ch);
    }
    r := Trim(s);
  }

  // ----- where the two scanners agree

  /** At `i` the Rust scan closes a literal on a quote that follows a backslash: the backslash was itself
      escaped, which the Python scan cannot see. */
  ghost predicate Misread(s: string, i: nat)
    requires i < |s|
  {
    var st := Fold(START, s[..i]);
    st.quote == Some(s[i]) && !st.escape && i > 0 && s[i - 1] == '\\'
  }

  ghost predicate NothingMisread(s: string) {
    forall i :: 0 <= i < |s| ==> !Misread(s, i)
  }

  lemma FoldPush(st: State, s: string, i: nat)
    requires i < |s|
    ensures Fold(st, s[..i + 1]) == Step(Fold(st, s[..i]), s[i])
  {
    assert s[..i + 1] == s[..i] + [s[i]] && [s[i]][1..] == [];
    FoldAppend(st, s[..i], [s[i]]);
  }

  lemma PyFoldPush(s: string, i: nat)
    requires i < |s|
    ensures PyFold(PY_START, s[..i + 1]) == PyStep(PyFold(PY_START, s[..i]), s[i])
  {
    assert s[..i + 1][..i] == s[..i];
  }

  /** After `i` characters both scans believe the same about brackets and literals. */
  ghost predicate SameView(s: string, i: nat)
    requires i <= |s|
  {
    var r, p := Fold(START, s[..i]), PyFold(PY_START, s[..i]);
    r.depth == p.depth && r.quote == p.quote
  }

  /** Bookkeeping of both scans: the escape flag is up only right after a backslash inside a literal. */
  lemma {:induction false} Flags(s: string, i: nat)
    requires i <= |s|
    ensures var r, p := Fold(START, s[..i]), PyFold(PY_START, s[..i]);
            && (r.escape ==> r.quote.Some? && i > 0 && s[i - 1] == '\\')
            && (r.quote.Some? ==> IsQuote(r.quote.value))
            && p.prev == if i == 0 then None else Some(s[i - 1])
    decreases i
  {
    if i > 0 {
      Flags(s, i - 1);
      FoldPush(START, s, i - 1);
      PyFoldPush(s, i - 1);
    } else {
      assert s[..0] == [];
    }
  }

  lemma ViewStep(s: string, i: nat)
    requires i < |s| && SameView(s, i)
    ensures SameView(s, i + 1) <==> !Misread(s, i)
  {
    Flags(s, i);
    FoldPush(START, s, i);
    PyFoldPush(s, i);
  }

  /** The two scans see every prefix alike exactly when no literal is closed right after a backslash. */
  lemma {:induction false} SameViewExactlyWithoutMisreading(s: string, n: nat)
    requires n <= |s|
    ensures (forall i :: 0 <= i <= n ==> SameView(s, i)) <==> (forall i :: 0 <= i < n ==> !Misread(s, i))
    decreases n
  {
    hide SameView, Misread;
    if n == 0 {
      SameStart(s);
    } else {
      SameViewExactlyWithoutMisreading(s, n - 1);
      if SameView(s, n - 1) {
        ViewStep(s, n - 1);
      }
    }
  }

  lemma SameStart(s: string)
    ensures SameView(s, 0)
  {
    assert s[..0] == [];
  }

  /** Scans that see every prefix alike stop at the same comma, or both at none. */
  lemma SameComma(s: string)
    requires NothingMisread(s)
    ensures FirstComma(START, s) == PyFirstComma(s, 0)
  {
    hide Misread, Stops, PyStops;
    SameViewExactlyWithoutMisreading(s, |s|);
    FirstCommaIsFirst(START, s);
    PyCommaInRange(s, 0);
    forall i | 0 <= i < |s| ensures Stops(Fold(START, s[..i]), s[i]) <==> PyStops(PyFold(PY_START, s[..i]), s[i]) {
      assert SameView(s, i);
      SameStops(s, i);
    }
  }

  lemma SameStops(s: string, i: nat)
    requires i < |s| && SameView(s, i)
    ensures Stops(Fold(START, s[..i]), s[i]) <==> PyStops(PyFold(PY_START, s[..i]), s[i])
  {}

  ghost predicate NoDoubleBackslash(s: string) {
    forall i :: 0 < i < |s| ==> !(s[i - 1] == '\\' && s[i] == '\\')
  }

  /** Without two backslashes in a row nothing is misread. */
  lemma SingleBackslashesAreRead(s: string)
    requires NoDoubleBackslash(s)
    ensures NothingMisread(s)
    ensures FirstComma(START, s) == PyFirstComma(s, 0)
  {
    forall i | 0 <= i < |s| ensures !Misread(s, i) {
      if Misread(s, i) {
        FoldPush(START, s, i - 1);
        Flags(s, i - 1);
        assert false;
      }
    }
    SameComma(s);
  }

  lemma FoldNothing()
    ensures Fold(START, []) == START && PyFold(PY_START, []) == PY_START
  {}

  /** A literal that ends in an escaped backslash: Rust finds the separator, Python runs past it. */
  lemma EscapedBackslashSplitsThem()
    ensures var s := ['"', '\\', '\\', '"', ',', 'm'];
            FirstComma(START, s) == Some(4) && PyFirstComma(s, 0) == None
  {
    hide FirstComma, PyFirstComma, Fold, PyFold;
    FoldNothing();
    var s := ['"', '\\', '\\', '"', ',', 'm'];
    FirstCommaIsFirst(START, s);
    PyCommaInRange(s, 0);
    assert s[..0] == [];
    FoldPush(START, s, 0); PyFoldPush(s, 0);
    FoldPush(START, s, 1); PyFoldPush(s, 1);
    FoldPush(START, s, 2); PyFoldPush(s, 2);
    FoldPush(START, s, 3); PyFoldPush(s, 3);
    assert Fold(START, s[..4]) == State(0, None, false);
    assert PyFold(PY_START, s[..4]) == PyState(0, Some('"'), Some('"'));
    FoldPush(START, s, 4); PyFoldPush(s, 4);
  }

  // ----- which expressions the Python scan reads right

  /** No string literal of the expression ends in an escaped backslash. */
  ghost predicate EndsClean(e: PyExpr) {
    match e
    case Atom(_) => true
    case Literal(_, body) => BodyEndsClean(body)
    case Bracketed(_, parts) => forall p :: p in parts ==> EndsClean(p)
    case Beside(items) => forall p :: p in items ==> EndsClean(p)
  }

  ghost predicate BodyEndsClean(body: seq<Chunk>) {
    body == [] || body[|body| - 1] != Escaped('\\')
  }

  /** Scanning on from `st`, `prev` being the character just read, misreads nothing of `s`. */
  ghost predicate ReadsRight(st: State, prev: Option<char>, s: string)
    decreases |s|
  {
    s == [] || (!(st.quote == Some(s[0]) && !st.escape && prev == Some('\\'))
                && ReadsRight(Step(st, s[0]), Some(s[0]), s[1..]))
  }

  function LastOr(prev: Option<char>, s: string): Option<char> {
    if s == [] then prev else Some(s[|s| - 1])
  }

  lemma {:induction false} ReadsRightAppend(st: State, prev: Option<char>, a: string, b: string)
    ensures ReadsRight(st, prev, a + b) <==> ReadsRight(st, prev, a) && ReadsRight(Fold(st, a), LastOr(prev, a), b)
    decreases |a|
  {
    if a == [] {
      assert a + b == b;
    } else {
      assert (a + b)[1..] == a[1..] + b;
      ReadsRightAppend(Step(st, a[0]), Some(a[0]), a[1..], b);
    }
  }

  /** The same by position. */
  lemma {:induction false} ReadsRightByPosition(s: string, n: nat)
    requires n <= |s|
    ensures ReadsRight(START, None, s[..n]) <==> forall i :: 0 <= i < n ==> !Misread(s, i)
  {
    if n > 0 {
      ReadsRightByPosition(s, n - 1);
      assert s[..n] == s[..n - 1] + [s[n - 1]];
      ReadsRightAppend(START, None, s[..n - 1], [s[n - 1]]);
      var st, prev := Fold(START, s[..n - 1]), LastOr(None, s[..n - 1]);
      assert [s[n - 1]][1..] == [];
      assert ReadsRight(st, prev, [s[n - 1]]) <==> !Misread(s, n - 1);
    }
  }

  lemma ReadsOne(st: State, prev: Option<char>, c: char)
    requires st.quote != Some(c) || st.escape
    ensures ReadsRight(st, prev, [c])
  {
    assert [c][1..] == [];
  }

  /** A body and its closing quote: right unless the body ends in an escaped backslash. */
  lemma {:induction false} BodyReadsRight(depth: int, q: char, prev: Option<char>, body: seq<Chunk>)
    requires Valid(Literal(q, body))
    ensures ReadsRight(State(depth, Some(q), false), prev, PrintBody(body) + [q])
            <==> if body == [] then prev != Some('\\') else BodyEndsClean(body)
    decreases |body|
  {
    var st := State(depth, Some(q), false);
    if body == [] {
      assert PrintBody(body) + [q] == [q] && [q][1..] == [];
    } else {
      assert Valid(Literal(q, body[1..]));
      var rest := PrintBody(body[1..]) + [q];
      var c := body[0].c;
      BodyReadsRight(depth, q, Some(c), body[1..]);
      var head := match body[0] case Plain(c) => [c] case Escaped(c) => ['\\', c];
      assert PrintBody(body) + [q] == head + rest;
      ChunkSkipped(st, q, body[0]);
      ChunkReadsRight(st, prev, q, body[0]);
      ReadsRightAppend(st, prev, head, rest);
      assert LastOr(prev, head) == Some(c);
    }
  }

  lemma ChunkReadsRight(st: State, prev: Option<char>, q: char, chunk: Chunk)
    requires st.quote == Some(q) && !st.escape && IsQuote(q)
    requires chunk.Plain? ==> chunk.c != q
    ensures ReadsRight(st, prev, match chunk case Plain(c) => [c] case Escaped(c) => ['\\', c])
  {
    match chunk
    case Plain(c) => ReadsOne(st, prev, c);
    case Escaped(c) =>
      assert ['\\', c][1..] == [c];
      ReadsOne(Step(st, '\\'), Some('\\'), c);
  }

  lemma LiteralReadsRight(depth: int, prev: Option<char>, q: char, body: seq<Chunk>)
    requires Valid(Literal(q, body))
    ensures ReadsRight(State(depth, None, false), prev, Print(Literal(q, body))) <==> BodyEndsClean(body)
  {
    var s := [q] + PrintBody(body) + [q];
    assert s[1..] == PrintBody(body) + [q];
    BodyReadsRight(depth, q, Some(q), body);
  }

  lemma {:induction false} AtomReadsRight(depth: int, prev: Option<char>, text: string)
    requires Valid(Atom(text))
    ensures ReadsRight(State(depth, None, false), prev, text)
    decreases |text|
  {
    if text != [] {
      assert Valid(Atom(text[1..]));
      AtomReadsRight(depth, Some(text[0]), text[1..]);
    }
  }

  /** A written expression is read right exactly when none of its literals ends in an escaped backslash. */
  lemma {:induction false} PrintReadsRight(depth: nat, prev: Option<char>, e: PyExpr)
    requires Valid(e)
    ensures ReadsRight(State(depth, None, false), prev, Print(e)) <==> EndsClean(e)
    decreases e, 0
  {
    match e
    case Atom(text) => AtomReadsRight(depth, prev, text);
    case Literal(q, body) => LiteralReadsRight(depth, prev, q, body);
    case Bracketed(kind, parts) =>
      var inside := State(depth + 1, None, false);
      var middle := PrintAll(parts, ", ");
      PrintAllReadsRight(depth + 1, Some(OpenOf(kind)), parts, ", ");
      PrintAllTransparent(depth + 1, parts, ", ");
      ReadsRightAppend(inside, Some(OpenOf(kind)), middle, [CloseOf(kind)]);
      ReadsOne(inside, LastOr(Some(OpenOf(kind)), middle), CloseOf(kind));
      assert ([OpenOf(kind)] + middle + [CloseOf(kind)])[1..] == middle + [CloseOf(kind)];
    case Beside(items) => PrintAllReadsRight(depth, prev, items, "");
  }

  lemma {:induction false} PrintAllReadsRight(depth: nat, prev: Option<char>, es: seq<PyExpr>, sep: string)
    requires forall e :: e in es ==> Valid(e)
    requires sep == "" || (sep == ", " && depth != 0)
    ensures ReadsRight(State(depth, None, false), prev, PrintAll(es, sep)) <==> forall e :: e in es ==> EndsClean(e)
    decreases es, 1
  {
    hide EndsClean, LastOr, Transparent;
    if es != [] {
      PrintReadsRight(depth, prev, es[0]);
      if |es| > 1 {
        var first := Print(es[0]);
        PrintTransparent(depth, es[0]);
        PrintAllReadsRight(depth, LastOr(LastOr(prev, first), sep), es[1..], sep);
        JoinReadsRight(depth, prev, first, sep, PrintAll(es[1..], sep));
        AllOfSplit(es);
      }
    }
  }

  lemma AllOfSplit(es: seq<PyExpr>)
    requires es != []
    ensures (forall e :: e in es ==> EndsClean(e)) <==> EndsClean(es[0]) && forall e :: e in es[1..] ==> EndsClean(e)
  {
    hide EndsClean;
    assert es == [es[0]] + es[1..];
  }

  lemma JoinReadsRight(depth: nat, prev: Option<char>, first: string, sep: string, rest: string)
    requires Transparent(depth, first) && (sep == "" || (sep == ", " && depth != 0))
    ensures var st := State(depth, None, false);
            ReadsRight(st, prev, first + sep + rest)
            <==> ReadsRight(st, prev, first) && ReadsRight(st, LastOr(LastOr(prev, first), sep), rest)
  {
    hide ReadsRight, LastOr;
    var st := State(depth, None, false);
    SeparatorTransparent(depth, sep);
    SeparatorReadsRight(depth, LastOr(prev, first), sep);
    ReadsRightAppend(st, prev, first, sep + rest);
    ReadsRightAppend(st, LastOr(prev, first), sep, rest);
    assert first + sep + rest == first + (sep + rest);
  }

  lemma SeparatorReadsRight(depth: int, prev: Option<char>, sep: string)
    requires sep == "" || sep == ", "
    ensures ReadsRight(State(depth, None, false), prev, sep)
  {
    if sep == ", " {
      assert sep[1..] == " " && sep[1..][1..] == "";
    }
  }

  /** For written expressions: the two scans see every prefix alike exactly when no literal ends in an
      escaped backslash. */
  lemma SameViewExactlyWhenLiteralsEndClean(e: PyExpr)
    requires Valid(e)
    ensures (forall i :: 0 <= i <= |Print(e)| ==> SameView(Print(e), i)) <==> EndsClean(e)
  {
    hide SameView, Misread, ReadsRight, Print, EndsClean, Valid;
    var s := Print(e);
    SameViewExactlyWithoutMisreading(s, |s|);
    ReadsRightByPosition(s, |s|);
    assert s[..|s|] == s;
    PrintReadsRight(0, None, e);
  }

  // ----- padding and prefixes of the Python scan

  lemma {:induction false} PyFoldSpace(pad: string)
    requires AllSpace(pad)
    ensures PyFold(PY_START, pad) == PyState(0, None, LastOr(None, pad))
    decreases |pad|
  {
    if pad != [] {
      PyFoldSpace(pad[..|pad| - 1]);
    }
  }

  /** Space in front of a text changes nothing of what the scan believes in it. */
  lemma {:induction false} PyFoldPadded(pad: string, t: string)
    requires AllSpace(pad)
    ensures var p, u := PyFold(PY_START, pad + t), PyFold(PY_START, t);
            p.depth == u.depth && p.quote == u.quote && (t != [] ==> p.prev == u.prev)
    decreases |t|
  {
    if t == [] {
      assert pad + t == pad;
      PyFoldSpace(pad);
    } else {
      assert (pad + t)[..|pad + t| - 1] == pad + t[..|t| - 1];
      PyFoldPadded(pad, t[..|t| - 1]);
    }
  }

  lemma FirstStopIs(s: string, k: nat)
    requires k < |s| && PyStops(PyFold(PY_START, s[..k]), s[k])
    requires forall i :: 0 <= i < k ==> !PyStops(PyFold(PY_START, s[..i]), s[i])
    ensures PyFirstComma(s, 0) == Some(k)
  {
    hide PyFold, PyStops;
    PyCommaInRange(s, 0);
  }

  lemma NoStopIs(s: string)
    requires forall i :: 0 <= i < |s| ==> !PyStops(PyFold(PY_START, s[..i]), s[i])
    ensures PyFirstComma(s, 0) == None
  {
    hide PyFold, PyStops;
    PyCommaInRange(s, 0);
  }

  lemma StopPadded(pad: string, t: string, i: nat)
    requires AllSpace(pad) && i < |pad| + |t|
    ensures var s := pad + t;
            PyStops(PyFold(PY_START, s[..i]), s[i])
            <==> i >= |pad| && PyStops(PyFold(PY_START, t[..i - |pad|]), t[i - |pad|])
  {
    hide PyFold;
    var s := pad + t;
    if i < |pad| {
      assert IsSpace(s[i]);
    } else {
      assert s[..i] == pad + t[..i - |pad|];
      PyFoldPadded(pad, t[..i - |pad|]);
    }
  }

  /** Space in front shifts the separator and nothing else. */
  lemma CommaPadded(pad: string, t: string)
    requires AllSpace(pad)
    ensures PyFirstComma(pad + t, 0) == match PyFirstComma(t, 0) case Some(v) => Some(|pad| + v) case None => None
  {
    hide PyFold, PyStops, PyFirstComma, AllSpace;
    var s := pad + t;
    PyCommaInRange(t, 0);
    forall i | 0 <= i < |s|
      ensures PyStops(PyFold(PY_START, s[..i]), s[i])
              <==> i >= |pad| && PyStops(PyFold(PY_START, t[..i - |pad|]), t[i - |pad|])
    {
      StopPadded(pad, t, i);
    }
    match PyFirstComma(t, 0)
    case Some(v) =>
      assert (|pad| + v) - |pad| == v;
      FirstStopIs(s, |pad| + v);
    case None => NoStopIs(s);
  }

  /** A separator in the front part is the separator of the whole; otherwise the front part is behind it. */
  lemma CommaInFront(a: string, b: string)
    ensures var r, f := PyFirstComma(a + b, 0), PyFirstComma(a, 0);
            && (f.Some? ==> r == f && f.value < |a|)
            && (f.None? && r.Some? ==> |a| <= r.value < |a + b|)
            && (f.None? && b != [] ==> (r == Some(|a|) <==> PyStops(PyFold(PY_START, a), b[0])))
  {
    hide PyFold, PyStops, PyFirstComma;
    var s := a + b;
    PyCommaInRange(a, 0);
    PyCommaInRange(s, 0);
    forall i | 0 <= i < |a|
      ensures PyStops(PyFold(PY_START, s[..i]), s[i]) <==> PyStops(PyFold(PY_START, a[..i]), a[i])
    {
      assert s[..i] == a[..i];
    }
    assert s[..|a|] == a;
    if PyFirstComma(a, 0).Some? {
      FirstStopIs(s, PyFirstComma(a, 0).value);
    } else if b != [] && PyStops(PyFold(PY_START, a), b[0]) {
      FirstStopIs(s, |a|);
    }
  }

  // ----- the Python round trip

  /** The two spellings the Python conversion strips: "assert " and, before a bracket, "assert(". */
  predicate PyKeyword(gap: string, text: string) {
    if gap == "" then "(" <= text else gap[0] == ' ' && AllSpace(gap)
  }

  /** What is left of the gap once the keyword is stripped. */
  function PadOf(gap: string): string { if gap == "" then "" else gap[1..] }

  lemma {:induction false} TrimEndIsPrefix(s: string)
    ensures TrimEnd(s) <= s && (TrimEnd(s) == [] || !IsSpace(TrimEnd(s)[|TrimEnd(s)| - 1]))
    decreases |s|
  {
    if s != [] && IsSpace(s[|s| - 1]) {
      TrimEndIsPrefix(s[..|s| - 1]);
    }
  }

  lemma PyStripped(lead: string, gap: string, text: string, tail: string)
    requires AllSpace(lead) && PyKeyword(gap, text) && Snug(text)
    ensures PyBody(lead + "assert" + gap + text + tail) == PadOf(gap) + text + TrimEnd(tail)
  {
    hide TrimEnd, Trim, PyBody;
    var case_, rest := lead + "assert" + gap + text + tail, gap + text + TrimEnd(tail);
    TrimmedCase(lead, gap + text, tail);
    assert lead + "assert" + (gap + text) + tail == case_ && "assert" + (gap + text) + TrimEnd(tail) == "assert" + rest;
    GapDecides(gap, text, TrimEnd(tail));
    KeywordStripped(rest, case_);
  }

  lemma TrimmedCase(lead: string, body: string, tail: string)
    requires AllSpace(lead) && body != [] && !IsSpace(body[|body| - 1])
    ensures Trim(lead + "assert" + body + tail) == "assert" + body + TrimEnd(tail)
  {
    hide TrimStart, TrimEnd, AllSpace;
    var front := "assert" + body;
    TrimStartPadding(lead, front + tail);
    TrimEndKeepsFront(front, tail);
    assert lead + (front + tail) == lead + "assert" + body + tail;
  }

  lemma GapDecides(gap: string, text: string, tail: string)
    requires PyKeyword(gap, text)
    ensures var rest := gap + text + tail;
            && (" " <= rest || "(" <= rest)
            && (if " " <= rest then rest[1..] else rest) == PadOf(gap) + text + tail
  {
    var rest := gap + text + tail;
    if gap == "" {
      assert rest == text + tail && rest[0] == '(';
    } else {
      assert rest[0] == ' ' && rest[1..] == gap[1..] + text + tail;
    }
  }

  lemma KeywordStripped(rest: string, case_: string)
    requires Trim(case_) == "assert" + rest && (" " <= rest || "(" <= rest)
    ensures PyBody(case_) == if " " <= rest then rest[1..] else rest
  {
    hide Trim;
    var s := "assert" + rest;
    assert s[..6] == "assert" && s[6..] == rest;
    if " " <= rest {
      assert s[..7] == "assert " && s[7..] == rest[1..];
    } else {
      assert s[..7] == "assert(" && s[6] != ' ';
    }
  }

  lemma TrimSnug(s: string)
    requires Snug(s)
    ensures Trim(s) == s
  {}

  lemma {:induction false} TrimStartSpace(pad: string, t: string)
    requires AllSpace(pad)
    ensures TrimStart(pad + t) == TrimStart(t)
    decreases |pad|
  {
    if pad == [] {
      assert pad + t == t;
    } else {
      assert (pad + t)[1..] == pad[1..] + t;
      TrimStartSpace(pad[1..], t);
    }
  }

  lemma PieceOf(case_: string, s: string)
    requires PyBody(case_) == s
    ensures var idx := PyFirstComma(s, 0);
            && (idx.Some? ==> idx.value < |s|)
            && PyConverted(case_) == Trim(if idx.Some? then s[..idx.value] else s)
  {
    hide PyFirstComma, Trim, PyBody, PyFold, PyStops;
    PyCommaInRange(s, 0);
  }

  lemma TrimSpace(pad: string, t: string)
    requires AllSpace(pad)
    ensures Trim(pad + t) == Trim(t)
  {
    hide TrimStart, TrimEnd, AllSpace;
    TrimStartSpace(pad, t);
  }

  lemma PieceIs(case_: string, pad: string, r: string)
    requires AllSpace(pad) && PyBody(case_) == pad + r
    ensures var idx := PyFirstComma(r, 0);
            && (idx.Some? ==> idx.value < |r|)
            && PyConverted(case_) == Trim(if idx.Some? then r[..idx.value] else r)
  {
    hide PyFirstComma, Trim, PyBody, AllSpace, PyConverted;
    CommaPadded(pad, r);
    PieceOf(case_, pad + r);
    var idx := PyFirstComma(r, 0);
    if idx.Some? {
      assert (pad + r)[..|pad| + idx.value] == pad + r[..idx.value];
      TrimSpace(pad, r[..idx.value]);
    } else {
      TrimSpace(pad, r);
    }
  }

  /** What the conversion makes of an assert: the trimmed front of expression and tail up to the separator. */
  lemma PyConvertedIs(lead: string, gap: string, text: string, tail: string)
    requires AllSpace(lead) && PyKeyword(gap, text) && Snug(text)
    ensures var r := text + TrimEnd(tail); var idx := PyFirstComma(r, 0);
            && (idx.Some? ==> idx.value < |r|)
            && PyConverted(lead + "assert" + gap + text + tail) == Trim(if idx.Some? then r[..idx.value] else r)
  {
    hide PyFirstComma, Trim, TrimEnd, PyBody, PyKeyword, AllSpace, Snug, PyConverted, PadOf;
    var pad, r := PadOf(gap), text + TrimEnd(tail);
    PyStripped(lead, gap, text, tail);
    PadIsSpace(gap, text);
    assert pad + text + TrimEnd(tail) == pad + r;
    PieceIs(lead + "assert" + gap + text + tail, pad, r);
  }

  /** The Python scan of `text` ends where it began, outside brackets and literals, and met no separator. */
  ghost predicate PyTransparent(text: string) {
    && PyFold(PY_START, text).depth == 0 && PyFold(PY_START, text).quote.None?
    && PyFirstComma(text, 0).None?
  }

  /** For every expression text whatever, with any message: the Python conversion returns the text exactly when
      its own scan of the text is transparent. Without a message it need only meet no separator. */
  lemma PythonRoundTripIsAboutTheText(text: string, lead: string, gap: string, message: string)
    requires AllSpace(lead) && PyKeyword(gap, text) && Snug(text)
    ensures PyConverted(lead + "assert" + gap + text + "," + message) == text <==> PyTransparent(text)
    ensures PyConverted(lead + "assert" + gap + text) == text <==> PyFirstComma(text, 0).None?
  {
    hide PyFold, PyFirstComma, TrimStart, TrimEnd, PyConverted, PyKeyword, AllSpace;
    var tail := "," + TrimEnd(message);
    PyConvertedIs(lead, gap, text, "," + message);
    TailTrimmed("," + message);
    CommaInFront(text, tail);
    assert lead + "assert" + gap + text + ("," + message) == lead + "assert" + gap + text + "," + message;
    PyCommaInRange(text + tail, 0);
    CutAgainst(text, TrimEnd(message), PyFirstComma(text + tail, 0));
    PyConvertedIs(lead, gap, text, "");
    TrimEndIsPrefix("");
    assert text + "" == text && lead + "assert" + gap + text + "" == lead + "assert" + gap + text;
    PyCommaInRange(text, 0);
    CutAgainst(text, TrimEnd(message), PyFirstComma(text, 0));
    TrimSnug(text);
  }

  /** Cutting the assert's body at a position and trimming gives the expression exactly when the position is the
      end of the expression. */
  lemma CutAgainst(text: string, m: string, cut: Option<nat>)
    requires Snug(text) && (cut.Some? ==> cut.value < |text| + 1 + |m|)
    ensures var r := text + ("," + m); var piece := if cut.Some? then r[..cut.value] else r;
            && (Trim(piece) == text <==> cut == Some(|text|))
            && (cut.Some? && cut.value < |text| ==> piece == text[..cut.value])
  {
    hide Trim, Snug;
    var r := text + ("," + m);
    var piece := if cut.Some? then r[..cut.value] else r;
    if cut.Some? && cut.value < |text| {
      TrimShortens(piece);
    } else if cut == Some(|text|) {
      TrimSnug(text);
      assert piece == text;
    } else {
      assert piece == text + "," + piece[|text| + 1..];
      TrimPastComma(text, piece[|text| + 1..]);
    }
  }

  lemma TrimPastComma(text: string, back: string)
    requires Snug(text)
    ensures |Trim(text + "," + back)| > |text|
  {
    hide TrimStart, TrimEnd;
    var front := text + ",";
    TrimStartPadding("", front + back);
    assert "" + (front + back) == front + back;
    TrimEndKeepsFront(front, back);
  }

  lemma TrimShortens(s: string)
    ensures |Trim(s)| <= |s|
  {
    hide TrimEnd;
    TrimStartShortens(s);
    TrimEndIsPrefix(TrimStart(s));
  }

  lemma {:induction false} TrimStartShortens(s: string)
    ensures |TrimStart(s)| <= |s|
  {
    if s != [] {
      TrimStartShortens(s[1..]);
    }
  }

  /** A case written without the keyword is taken as it stands, up to a separator if it has one. */
  lemma PythonBareExpression(text: string, lead: string)
    requires AllSpace(lead) && Snug(text) && !("assert " <= text) && !("assert(" <= text)
    ensures PyConverted(lead + text) == text <==> PyFirstComma(text, 0).None?
  {
    hide PyFold, PyFirstComma, Trim, PyConverted;
    TrimSpace(lead, text);
    TrimSnug(text);
    assert "" + text == text;
    PieceIs(lead + text, "", text);
    PyCommaInRange(text, 0);
    CutAgainst(text, "", PyFirstComma(text, 0));
  }

  /** An expression whose literals end clean is transparent to the Python scan. */
  lemma CleanIsTransparent(e: PyExpr)
    requires Valid(e) && EndsClean(e)
    ensures PyTransparent(Print(e))
  {
    hide Misread, ReadsRight, Print, EndsClean, PyFirstComma, FirstComma;
    var text := Print(e);
    PrintTransparent(0, e);
    PrintReadsRight(0, None, e);
    ReadsRightByPosition(text, |text|);
    assert text[..|text|] == text;
    SameComma(text);
    SameViewExactlyWithoutMisreading(text, |text|);
    assert SameView(text, |text|);
  }

  /** The same promise in every form the Python conversion knows: "assert " or "assert(", with any message or
      none, for expressions whose literals end clean. */
  lemma PythonRoundTrip(e: PyExpr, lead: string, gap: string, tail: string)
    requires Valid(e) && Snug(Print(e)) && AllSpace(lead) && PyKeyword(gap, Print(e)) && EndsClean(e)
    requires tail == "" || "," <= tail
    ensures PyConverted(lead + "assert" + gap + Print(e) + tail) == Print(e)
  {
    hide PyConverted, Print, EndsClean, PyKeyword, Snug, AllSpace;
    var front := lead + "assert" + gap + Print(e);
    CleanIsTransparent(e);
    if tail == "" {
      PythonRoundTripIsAboutTheText(Print(e), lead, gap, "");
      assert front + tail == front;
    } else {
      PythonRoundTripIsAboutTheText(Print(e), lead, gap, tail[1..]);
      assert tail == "," + tail[1..] && front + tail == front + "," + tail[1..];
    }
  }

  lemma PadIsSpace(gap: string, text: string)
    requires PyKeyword(gap, text)
    ensures AllSpace(PadOf(gap))
  {}

  lemma TailTrimmed(tail: string)
    requires "," <= tail
    ensures TrimEnd(tail) == "," + TrimEnd(tail[1..])
  {
    hide TrimEnd;
    TrimEndKeepsFront(",", tail[1..]);
    assert "," + tail[1..] == tail;
  }

  // ----- where it fails

  /** The first literal, in writing order, that ends in an escaped backslash has the quote `q`, and no `q` is
      written after it. */
  ghost predicate LastQuoteIsDirty(e: PyExpr, q: char)
    decreases e, 0
  {
    match e
    case Atom(_) => false
    case Literal(c, body) => c == q && !BodyEndsClean(body)
    case Bracketed(_, parts) => LastQuoteIsDirtyIn(parts, q)
    case Beside(items) => LastQuoteIsDirtyIn(items, q)
  }

  ghost predicate LastQuoteIsDirtyIn(es: seq<PyExpr>, q: char)
    decreases es, 1
  {
    && es != []
    && ((LastQuoteIsDirty(es[0], q) && forall e :: e in es[1..] ==> q !in Print(e))
        || (EndsClean(es[0]) && LastQuoteIsDirtyIn(es[1..], q)))
  }

  lemma {:induction false} NotPrinted(es: seq<PyExpr>, sep: string, q: char)
    requires q !in sep && forall e :: e in es ==> q !in Print(e)
    ensures q !in PrintAll(es, sep)
    decreases |es|
  {
    hide Print;
    if |es| > 1 {
      NotPrinted(es[1..], sep, q);
    }
  }

  /** Scanning `a` from `st` reads everything right and ends inside a `q` literal, just after a backslash that
      was itself escaped: a `q` that follows is misread. */
  ghost predicate MissesNext(st: State, prev: Option<char>, a: string, q: char) {
    && ReadsRight(st, prev, a)
    && Fold(st, a).quote == Some(q) && !Fold(st, a).escape && LastOr(prev, a) == Some('\\')
  }

  lemma {:induction false} BodyInteriorReadsRight(depth: int, q: char, prev: Option<char>, body: seq<Chunk>)
    requires Valid(Literal(q, body))
    ensures ReadsRight(State(depth, Some(q), false), prev, PrintBody(body))
    ensures body != [] ==> LastOr(prev, PrintBody(body)) == Some(body[|body| - 1].c)
    decreases |body|
  {
    if body != [] {
      assert Valid(Literal(q, body[1..]));
      var st, c := State(depth, Some(q), false), body[0].c;
      BodyInteriorReadsRight(depth, q, Some(c), body[1..]);
      var head := match body[0] case Plain(c) => [c] case Escaped(c) => ['\\', c];
      ChunkSkipped(st, q, body[0]);
      ChunkReadsRight(st, prev, q, body[0]);
      ReadsRightAppend(st, prev, head, PrintBody(body[1..]));
      assert LastOr(prev, head) == Some(c);
      LastOfBoth(prev, head, PrintBody(body[1..]));
    }
  }

  lemma LastOfBoth(prev: Option<char>, a: string, b: string)
    ensures LastOr(prev, a + b) == LastOr(LastOr(prev, a), b)
  {
    assert a + [] == a;
  }

  lemma FoldsBack(depth: int, s: string)
    requires Transparent(depth, s)
    ensures Fold(State(depth, None, false), s) == State(depth, None, false)
  {}

  /** Going on after a transparent text. */
  lemma MissesAfter(depth: int, prev: Option<char>, first: string, a: string, q: char)
    requires Transparent(depth, first) && ReadsRight(State(depth, None, false), prev, first)
    requires MissesNext(State(depth, None, false), LastOr(prev, first), a, q)
    ensures MissesNext(State(depth, None, false), prev, first + a, q)
  {
    hide ReadsRight, LastOr, Transparent;
    FoldsBack(depth, first);
    ReadsRightAppend(State(depth, None, false), prev, first, a);
    FoldAppend(State(depth, None, false), first, a);
    LastOfBoth(prev, first, a);
  }

  /** Such an expression is written `a`, the misread quote, and `b` without another one. */
  lemma {:induction false} DirtySplit(depth: nat, prev: Option<char>, e: PyExpr, q: char)
    returns (a: string, b: string)
    requires Valid(e) && LastQuoteIsDirty(e, q) && IsQuote(q)
    ensures Print(e) == a + [q] + b && q !in b && MissesNext(State(depth, None, false), prev, a, q)
    decreases e, 0
  {
    var st := State(depth, None, false);
    match e
    case Literal(_, body) =>
      a, b := [q] + PrintBody(body), "";
      BodySkipped(depth, q, body);
      BodyInteriorReadsRight(depth, q, Some(q), body);
      OpeningQuote(depth, prev, q, PrintBody(body));
    case Bracketed(kind, parts) =>
      var inner, rest := DirtySplitIn(depth + 1, Some(OpenOf(kind)), parts, ", ", q);
      a, b := [OpenOf(kind)] + inner, rest + [CloseOf(kind)];
      OpeningBracket(depth, prev, kind, inner, q);
      assert [OpenOf(kind)] + (inner + [q] + rest) + [CloseOf(kind)] == a + [q] + b;
    case Beside(items) => a, b := DirtySplitIn(depth, prev, items, "", q);
  }

  lemma OpeningQuote(depth: int, prev: Option<char>, q: char, inner: string)
    requires IsQuote(q) && inner != [] && inner[|inner| - 1] == '\\'
    requires var st := State(depth, Some(q), false); ReadsRight(st, Some(q), inner) && Fold(st, inner) == st
    ensures MissesNext(State(depth, None, false), prev, [q] + inner, q)
  {
    assert ([q] + inner)[1..] == inner;
  }

  lemma OpeningBracket(depth: int, prev: Option<char>, kind: nat, inner: string, q: char)
    requires kind < 3 && MissesNext(State(depth + 1, None, false), Some(OpenOf(kind)), inner, q)
    ensures MissesNext(State(depth, None, false), prev, [OpenOf(kind)] + inner, q)
  {
    var s := [OpenOf(kind)] + inner;
    assert s[1..] == inner;
    LastOfBoth(prev, [OpenOf(kind)], inner);
  }

  lemma {:induction false} DirtySplitIn(depth: nat, prev: Option<char>, es: seq<PyExpr>, sep: string, q: char)
    returns (a: string, b: string)
    requires (forall e :: e in es ==> Valid(e)) && LastQuoteIsDirtyIn(es, q) && IsQuote(q)
    requires sep == "" || (sep == ", " && depth != 0)
    ensures PrintAll(es, sep) == a + [q] + b && q !in b && MissesNext(State(depth, None, false), prev, a, q)
    decreases es, 1
  {
    hide MissesNext, EndsClean, Print, PrintAll, LastQuoteIsDirty, Valid, LastOr;
    var first := Print(es[0]);
    PrintAllStep(es, sep);
    if LastQuoteIsDirty(es[0], q) && forall e :: e in es[1..] ==> q !in Print(e) {
      a, b := DirtySplit(depth, prev, es[0], q);
      if |es| > 1 {
        var rest := PrintAll(es[1..], sep);
        NotPrinted(es[1..], sep, q);
        Regroup(a, q, b, sep, rest);
        b := b + (sep + rest);
      }
    } else {
      var before := LastOr(prev, first);
      var inner, rest := DirtySplitIn(depth, LastOr(before, sep), es[1..], sep, q);
      DirtyBehind(depth, prev, es[0], sep, inner, q);
      a, b := first + (sep + inner), rest;
      RegroupBehind(first, sep, inner, q, rest);
    }
  }

  lemma Regroup(a: string, q: char, b: string, sep: string, rest: string)
    ensures a + [q] + b + sep + rest == a + [q] + (b + (sep + rest))
  {}

  lemma RegroupBehind(first: string, sep: string, inner: string, q: char, rest: string)
    ensures first + sep + (inner + [q] + rest) == first + (sep + inner) + [q] + rest
  {}

  lemma PrintAllStep(es: seq<PyExpr>, sep: string)
    requires es != []
    ensures PrintAll(es, sep) == if |es| == 1 then Print(es[0]) else Print(es[0]) + sep + PrintAll(es[1..], sep)
  {
    hide Print;
  }

  /** A clean expression and a separator in front change nothing. */
  lemma DirtyBehind(depth: nat, prev: Option<char>, e: PyExpr, sep: string, inner: string, q: char)
    requires Valid(e) && EndsClean(e) && (sep == "" || (sep == ", " && depth != 0))
    requires MissesNext(State(depth, None, false), LastOr(LastOr(prev, Print(e)), sep), inner, q)
    ensures MissesNext(State(depth, None, false), prev, Print(e) + (sep + inner), q)
  {
    hide MissesNext, EndsClean, Print, LastOr, Valid, Transparent, ReadsRight;
    var before := LastOr(prev, Print(e));
    PrintTransparent(depth, e);
    PrintReadsRight(depth, prev, e);
    SeparatorTransparent(depth, sep);
    SeparatorReadsRight(depth, before, sep);
    MissesAfter(depth, before, sep, inner, q);
    MissesAfter(depth, prev, Print(e), sep + inner, q);
  }

  /** From a misread quote on the Python scan stays inside the literal as long as no such quote comes. */
  lemma {:induction false} StaysInside(s: string, p: nat, i: nat)
    requires p < i <= |s| && SameView(s, p) && Misread(s, p)
    requires forall j :: p < j < |s| ==> s[j] != s[p]
    ensures PyFold(PY_START, s[..i]).quote == Some(s[p])
    decreases i
  {
    PyFoldPush(s, i - 1);
    if i == p + 1 {
      Flags(s, p);
    } else {
      StaysInside(s, p, i - 1);
    }
  }

  /** A misread quote with no such quote behind it is never closed. */
  lemma NeverClosed(a: string, q: char, rest: string, i: nat)
    requires MissesNext(START, None, a, q) && q !in rest && |a| < i <= |a + [q] + rest|
    ensures PyFold(PY_START, (a + [q] + rest)[..i]).quote == Some(q)
  {
    hide ReadsRight;
    var s, p := a + [q] + rest, |a|;
    assert s[..p] == a && s[p] == q;
    ReadsRightByPosition(s, p);
    assert p > 0 && a[p - 1] == '\\' && Misread(s, p);
    SameViewExactlyWithoutMisreading(s, p);
    assert s[p + 1..] == rest;
    forall j | p < j < |s| ensures s[j] != q {
      assert s[j] == s[p + 1..][j - p - 1];
    }
    StaysInside(s, p, i);
  }

  /** An expression whose last `q` is misread is not transparent to the Python scan. */
  lemma DirtyIsNotTransparent(e: PyExpr, q: char)
    requires Valid(e) && LastQuoteIsDirty(e, q)
    ensures !PyTransparent(Print(e))
  {
    hide MissesNext, Print, LastQuoteIsDirty, PyFold, PyFirstComma;
    DirtyQuoteIsQuote(e, q);
    var a, b := DirtySplit(0, None, e, q);
    var text := a + [q] + b;
    NeverClosed(a, q, b, |text|);
    assert text[..|text|] == Print(e);
  }

  /** In front of a message without that quote no separator is found, and the message stays. */
  lemma PythonKeepsTheMessage(e: PyExpr, q: char, lead: string, gap: string, message: string)
    requires Valid(e) && Snug(Print(e)) && AllSpace(lead) && PyKeyword(gap, Print(e))
    requires LastQuoteIsDirty(e, q) && q !in message
    ensures PyConverted(lead + "assert" + gap + Print(e) + "," + message) == Print(e) + "," + TrimEnd(message)
  {
    hide PyFirstComma, TrimStart, TrimEnd, Trim, Print, PyConverted, MissesNext, PyKeyword, LastQuoteIsDirty,
      AllSpace, Valid, FirstComma, PyFold, Fold;
    var text, m := Print(e), TrimEnd(message);
    assert lead + "assert" + gap + text + "," + message == lead + "assert" + gap + text + ("," + message);
    PyConvertedIs(lead, gap, text, "," + message);
    TailTrimmed("," + message);
    DirtyQuoteIsQuote(e, q);
    var a, b := DirtySplit(0, None, e, q);
    TrimEndIsPrefix(message);
    PrintTransparent(0, e);
    SeparatorHidden(a, q, b, m);
    assert text + ("," + m) == a + [q] + b + "," + m;
    StillSnug(text, m);
    TrimSnug(text + "," + m);
  }

  /** A misread quote that is the last of its kind hides the separator behind it. */
  lemma SeparatorHidden(a: string, q: char, b: string, m: string)
    requires MissesNext(START, None, a, q) && Transparent(0, a + [q] + b) && q !in b && q != ',' && q !in m
    ensures PyFirstComma(a + [q] + b + "," + m, 0) == None
  {
    hide ReadsRight, Stops, PyStops, PyFirstComma, Transparent;
    var s, p, rest := a + [q] + b + "," + m, |a|, b + "," + m;
    assert s == a + [q] + rest;
    assert s[..p] == a && s[p] == q;
    ReadsRightByPosition(s, p);
    SameViewExactlyWithoutMisreading(s, p);
    SeparatorFound(a + [q] + b, m);
    FirstCommaIsFirst(START, s);
    forall i | 0 <= i < |s| ensures !PyStops(PyFold(PY_START, s[..i]), s[i]) {
      if i <= p {
        assert SameView(s, i);
        SameStops(s, i);
      } else {
        NeverClosed(a, q, rest, i);
        InsideNeverStops(PyFold(PY_START, s[..i]), s[i]);
      }
    }
    NoStopIs(s);
  }

  lemma InsideNeverStops(st: PyState, c: char)
    requires st.quote.Some?
    ensures !PyStops(st, c)
  {}

  lemma StillSnug(text: string, m: string)
    requires Snug(text) && (m == [] || !IsSpace(m[|m| - 1]))
    ensures Snug(text + "," + m)
  {}

  lemma {:induction false} DirtyQuoteIsQuote(e: PyExpr, q: char)
    requires Valid(e) && LastQuoteIsDirty(e, q)
    ensures IsQuote(q)
    decreases e, 0
  {
    match e
    case Literal(_, _) =>
    case Bracketed(_, parts) => DirtyQuoteIsQuoteIn(parts, q);
    case Beside(items) => DirtyQuoteIsQuoteIn(items, q);
  }

  lemma {:induction false} DirtyQuoteIsQuoteIn(es: seq<PyExpr>, q: char)
    requires (forall e :: e in es ==> Valid(e)) && LastQuoteIsDirtyIn(es, q)
    ensures IsQuote(q)
    decreases es, 1
  {
    if LastQuoteIsDirty(es[0], q) {
      DirtyQuoteIsQuote(es[0], q);
    } else {
      DirtyQuoteIsQuoteIn(es[1..], q);
    }
  }

  /** With any message at all, among the expressions whose literals end clean and those with a literal that does
      not and whose quote is not written again: the Python conversion returns the expression exactly when its
      literals end clean. */
  lemma PythonRoundTripExactlyWhen(e: PyExpr, q: char, lead: string, gap: string, message: string)
    requires Valid(e) && Snug(Print(e)) && AllSpace(lead) && PyKeyword(gap, Print(e))
    requires EndsClean(e) || LastQuoteIsDirty(e, q)
    ensures PyConverted(lead + "assert" + gap + Print(e) + "," + message) == Print(e) <==> EndsClean(e)
  {
    hide Print, PyConverted, LastQuoteIsDirty, EndsClean, PyKeyword, PyTransparent, Snug, AllSpace;
    PythonRoundTripIsAboutTheText(Print(e), lead, gap, message);
    if EndsClean(e) {
      CleanIsTransparent(e);
    } else {
      DirtyIsNotTransparent(e, q);
    }
  }

  /** Where the quote is written again only the scan of the text decides: here a later escaped quote makes up for
      the misread one. */
  lemma DirtyMayBeTransparent()
    ensures var e := Beside([Literal('"', [Escaped('\\')]), Literal('"', [Escaped('"')])]);
            Valid(e) && !EndsClean(e) && PyTransparent(Print(e))
  {
    hide PyFirstComma, PyFold;
    var first, second := Literal('"', [Escaped('\\')]), Literal('"', [Escaped('"')]);
    var e, s := Beside([first, second]), ['"', '\\', '\\', '"', '"', '\\', '"', '"'];
    assert Valid(first) && Valid(second) && !EndsClean(first) && first in [first, second];
    assert [first, second][1..] == [second];
    PrintsEscape('"', '\\');
    PrintsEscape('"', '"');
    calc {
      Print(e);
      PrintAll([first, second], "");
      Print(first) + "" + PrintAll([second], "");
      Print(first) + "" + Print(second);
      s;
    }
    PyFoldsTo(s);
    NoStopIs(s);
  }

  lemma PrintsEscape(q: char, c: char)
    ensures Print(Literal(q, [Escaped(c)])) == [q, '\\', c, q]
  {
    assert PrintBody([Escaped(c)][1..]) == [];
  }

  lemma PyFoldsTo(s: string)
    requires s == ['"', '\\', '\\', '"', '"', '\\', '"', '"']
    ensures PyFold(PY_START, s) == PyState(0, None, Some('"'))
  {
    hide PyFold;
    assert s[..0] == [] && s[..8] == s;
    FoldNothing();
    PyFoldPush(s, 0); PyFoldPush(s, 1); PyFoldPush(s, 2); PyFoldPush(s, 3);
    PyFoldPush(s, 4); PyFoldPush(s, 5); PyFoldPush(s, 6); PyFoldPush(s, 7);
  }
}
