/**
 * `getComparator`: the predicate a selector compiles to.  The selector
 * writes one line of JavaScript per set field, in table order, each
 * returning true when its test on the node holds, and hands the text to
 * `new Function`.  Here the text of each line is kept (to show which lines
 * the parser refuses) and its meaning is a clause evaluated against a
 * parsed dump line.
 */
module Comparator {
  import opened Js
  import opened SelectorFields
  import opened ViewNodes

  // ------------------------------------------------------------ the clauses

  /** Where a clause reads the node. */
  datatype Reading =
    | Prop(key: string)   // node.properties[key]
    | ClassOfNode         // node.className
    | DescriptionProp     // node.props.description
    | IdProp              // node.props.id

  /** How a clause compares what it reads with the stored value. */
  datatype Op =
    | LooseEqual          // x == val
    | StrictEqual         // x === val
    | IncludesValue       // x && x.includes(val)
    | StartsWithValue     // x && x.startsWith(val)
    | TestsPattern        // val.test(x)

  function OpOf(f: Field): Op {
    match f
    case TextContains => IncludesValue
    case DescriptionContains => IncludesValue
    case TextStartsWith => StartsWithValue
    case DescriptionStartsWith => StartsWithValue
    case TextMatches => TestsPattern
    case ClassNameMatches => TestsPattern
    case DescriptionMatches => TestsPattern
    case ResourceIdMatches => TestsPattern
    case Description => StrictEqual
    case ResourceId => StrictEqual
    case _ => LooseEqual
  }

  function ReadingOf(f: Field): Reading {
    match f
    case TextContains => Prop("text")
    case TextMatches => Prop("text")
    case TextStartsWith => Prop("text")
    case ClassName => ClassOfNode
    case ClassNameMatches => ClassOfNode
    case Description => DescriptionProp
    case DescriptionContains => DescriptionProp
    case DescriptionMatches => DescriptionProp
    case DescriptionStartsWith => DescriptionProp
    case ResourceId => IdProp
    case ResourceIdMatches => IdProp
    case _ => Prop(Name(f))
  }

  /** What the clause reads from the node; None for undefined. */
  function Read(r: Reading, rec: NodeRecord): Option<string> {
    match r
    case Prop(key) => Lookup(rec.properties, key)
    case ClassOfNode => Some(rec.className)
    case DescriptionProp => rec.props.description
    case IdProp => rec.props.id
  }

  /** The clause of one set field: the field and the value its slot holds (undefined when empty). */
  datatype Clause = Clause(field: Field, value: JsValue)

  function ValueOf(s: Slots, f: Field): JsValue {
    if f in s.values then s.values[f] else Undefined
  }

  /** The fields of `fs` whose bit the mask holds, in the order of `fs`. */
  function SetFieldsOf(mask: bv32, fs: seq<Field>): seq<Field> {
    if fs == [] then []
    else if HasBit(mask, fs[0]) then [fs[0]] + SetFieldsOf(mask, fs[1..])
    else SetFieldsOf(mask, fs[1..])
  }

  function SetFields(mask: bv32): seq<Field> {
    SetFieldsOf(mask, Fields)
  }

  /** One clause per set field, in the order `for (let key in fields)` visits the table. */
  function Clauses(s: Slots): (r: seq<Clause>)
    ensures |r| == |SetFields(s.mask)|
    ensures forall k :: 0 <= k < |r| ==> r[k] == Clause(SetFields(s.mask)[k], ValueOf(s, SetFields(s.mask)[k]))
  {
    var fs := SetFields(s.mask);
    seq(|fs|, k requires 0 <= k < |fs| => Clause(fs[k], ValueOf(s, fs[k])))
  }

  /** Strictly increasing table positions. */
  predicate InTableOrder(fs: seq<Field>) {
    forall a, b :: 0 <= a < b < |fs| ==> Position(fs[a]) < Position(fs[b])
  }

  lemma TableInOrder()
    ensures InTableOrder(Fields)
  {
    assert forall a :: 0 <= a < |Fields| ==> Position(Fields[a]) == a;
  }

  /** The listed fields are exactly the set fields of `fs`. */
  lemma {:induction false} SetFieldsOfMembers(mask: bv32, fs: seq<Field>, f: Field)
    ensures f in SetFieldsOf(mask, fs) <==> f in fs && HasBit(mask, f)
  {
    if fs != [] {
      SetFieldsOfMembers(mask, fs[1..], f);
      assert fs == [fs[0]] + fs[1..];
    }
  }

  /** Keeping some fields of a list in table order keeps table order. */
  lemma {:induction false} SetFieldsOfOrdered(mask: bv32, fs: seq<Field>)
    requires InTableOrder(fs)
    ensures InTableOrder(SetFieldsOf(mask, fs))
  {
    if fs != [] {
      var rest := fs[1..];
      OrderedTail(fs);
      SetFieldsOfOrdered(mask, rest);
      if HasBit(mask, fs[0]) {
        var kept := SetFieldsOf(mask, rest);
        forall f | f in kept
          ensures Position(fs[0]) < Position(f)
        {
          SetFieldsOfMembers(mask, rest, f);
        }
        OrderedCons(fs[0], kept);
      }
    }
  }

  /** The tail of an ordered list is ordered and comes after its head. */
  lemma OrderedTail(fs: seq<Field>)
    requires fs != [] && InTableOrder(fs)
    ensures InTableOrder(fs[1..])
    ensures forall f :: f in fs[1..] ==> Position(fs[0]) < Position(f)
  {
    var rest := fs[1..];
    assert forall a :: 0 <= a < |rest| ==> rest[a] == fs[a + 1];
  }

  /** A field placed before an ordered list of later fields keeps the list ordered. */
  lemma OrderedCons(x: Field, fs: seq<Field>)
    requires InTableOrder(fs)
    requires forall f :: f in fs ==> Position(x) < Position(f)
    ensures InTableOrder([x] + fs)
  {
    var r := [x] + fs;
    assert forall a :: 1 <= a < |r| ==> r[a] == fs[a - 1];
  }

  /** A mask holding exactly one field's bit keeps that field alone. */
  lemma {:induction false} SingleSetField(mask: bv32, f: Field, fs: seq<Field>)
    requires InTableOrder(fs)
    requires forall g :: HasBit(mask, g) <==> g == f
    ensures SetFieldsOf(mask, fs) == if f in fs then [f] else []
  {
    if fs != [] {
      var rest := fs[1..];
      assert InTableOrder(rest) by {
        assert forall a :: 0 <= a < |rest| ==> rest[a] == fs[a + 1];
      }
      SingleSetField(mask, f, rest);
      assert fs == [fs[0]] + rest;
      if fs[0] == f {
        forall a | 0 <= a < |rest|
          ensures rest[a] != f
        {
          assert rest[a] == fs[a + 1];
        }
      }
    }
  }

  /** A mask holding no field's bit keeps no field. */
  lemma {:induction false} NoSetField(mask: bv32, fs: seq<Field>)
    requires forall g :: !HasBit(mask, g)
    ensures SetFieldsOf(mask, fs) == []
  {
    if fs != [] {
      NoSetField(mask, fs[1..]);
    }
  }

  /** The clauses are exactly the set fields, each once, in table order. */
  lemma ClausesInTableOrder(s: Slots, f: Field)
    ensures (exists k :: 0 <= k < |Clauses(s)| && Clauses(s)[k].field == f) <==> HasBit(s.mask, f)
    ensures forall a, b :: 0 <= a < b < |Clauses(s)| ==> Position(Clauses(s)[a].field) < Position(Clauses(s)[b].field)
  {
    SetFieldsOfMembers(s.mask, Fields, f);
    TableOrder(f);
    TableInOrder();
    SetFieldsOfOrdered(s.mask, Fields);
    var fs := SetFields(s.mask);
    if HasBit(s.mask, f) {
      var k :| 0 <= k < |fs| && fs[k] == f;
      assert Clauses(s)[k].field == f;
    }
  }

  /** A selector with no bit set compiles to no clause. */
  lemma NoBitsNoClauses(s: Slots)
    requires s.mask & AllBits == 0
    ensures Clauses(s) == []
  {
    forall g
      ensures !HasBit(s.mask, g)
    {
      NoBitOutside(s.mask, g);
    }
    NoSetField(s.mask, Fields);
  }

  lemma NoBitOutside(m: bv32, f: Field)
    requires m & AllBits == 0
    ensures !HasBit(m, f)
  {
    BitInTable(f);
    OutsideMask(m, Bit(f), AllBits);
  }

  lemma OutsideMask(m: bv32, a: bv32, all: bv32)
    requires m & all == 0 && a & !all == 0
    ensures m & a == 0
  {
  }

  // ------------------------------------------------------------ evaluation

  /**
   * One line of the generated function on a node: `Ok(true)` returns true,
   * `Ok(false)` falls through to the next line, `Err` is the exception the
   * line throws.  `test` stands for `RegExp.prototype.test`.
   */
  function ClauseResult(c: Clause, rec: NodeRecord, test: (Pattern, string) -> bool): (r: Result<bool>)
    ensures OpOf(c.field) == IncludesValue || OpOf(c.field) == StartsWithValue ==>
              (r == Ok(true) ==> Read(ReadingOf(c.field), rec).Some? && Read(ReadingOf(c.field), rec).value != "")
  {
    var x := Read(ReadingOf(c.field), rec);
    var v := c.value;
    match OpOf(c.field)
    case LooseEqual => Ok(LooseEquals(x, v))
    case StrictEqual => Ok(StrictEquals(x, v))
    case IncludesValue =>
      if x.None? || x.value == "" then Ok(false)
      else if v.Regex? then Err(TypeError)
      else Ok(Includes(x.value, ToStr(v)))
    case StartsWithValue =>
      if x.None? || x.value == "" then Ok(false)
      else if v.Regex? then Err(TypeError)
      else Ok(StartsWith(x.value, ToStr(v)))
    case TestsPattern =>
      if v.Regex? then Ok(test(v.p, match x case Some(t) => t case None => "undefined"))
      else Err(TypeError)
  }

  /** The generated function: the first line that returns or throws decides; past the last line it is false. */
  function Eval(cs: seq<Clause>, rec: NodeRecord, test: (Pattern, string) -> bool): (r: Result<bool>)
    ensures (forall i :: 0 <= i < |cs| ==> ClauseResult(cs[i], rec, test) == Ok(false)) ==> r == Ok(false)
  {
    if cs == [] then Ok(false)
    else
      var r := ClauseResult(cs[0], rec, test);
      if r == Ok(false) then Eval(cs[1..], rec, test) else r
  }

  /**
   * The function answers false exactly when every line falls through, and
   * otherwise gives the answer of the first line that does not.
   */
  lemma {:induction false} EvalFirstDecides(cs: seq<Clause>, rec: NodeRecord, test: (Pattern, string) -> bool)
    ensures Eval(cs, rec, test) == Ok(false) <==> forall i :: 0 <= i < |cs| ==> ClauseResult(cs[i], rec, test) == Ok(false)
    ensures Eval(cs, rec, test) != Ok(false) ==>
              exists i :: 0 <= i < |cs| && ClauseResult(cs[i], rec, test) == Eval(cs, rec, test)
                          && forall j :: 0 <= j < i ==> ClauseResult(cs[j], rec, test) == Ok(false)
  {
    if cs != [] {
      var tail := cs[1..];
      EvalFirstDecides(tail, rec, test);
      assert forall i :: 1 <= i < |cs| ==> cs[i] == tail[i - 1];
      if ClauseResult(cs[0], rec, test) == Ok(false) && Eval(tail, rec, test) != Ok(false) {
        var i :| 0 <= i < |tail| && ClauseResult(tail[i], rec, test) == Eval(tail, rec, test)
                 && forall j :: 0 <= j < i ==> ClauseResult(tail[j], rec, test) == Ok(false);
        assert ClauseResult(cs[i + 1], rec, test) == Eval(cs, rec, test);
      }
    }
  }

  /** Where no line throws, the function is the disjunction of its lines. */
  lemma EvalIsDisjunction(cs: seq<Clause>, rec: NodeRecord, test: (Pattern, string) -> bool)
    requires forall i :: 0 <= i < |cs| ==> ClauseResult(cs[i], rec, test).Ok?
    ensures Eval(cs, rec, test) == Ok(exists i :: 0 <= i < |cs| && ClauseResult(cs[i], rec, test) == Ok(true))
  {
    EvalFirstDecides(cs, rec, test);
    if Eval(cs, rec, test) == Ok(false) {
      assert forall i :: 0 <= i < |cs| ==> ClauseResult(cs[i], rec, test) != Ok(true);
    } else {
      var i :| 0 <= i < |cs| && ClauseResult(cs[i], rec, test) == Eval(cs, rec, test)
               && forall j :: 0 <= j < i ==> ClauseResult(cs[j], rec, test) == Ok(false);
      var r := ClauseResult(cs[i], rec, test);
      assert r.Ok? && r != Ok(false);
      assert r.value;
      assert r == Ok(true);
      assert 0 <= i < |cs| && ClauseResult(cs[i], rec, test) == Ok(true);
    }
  }

  /** A selector with no field set matches no node. */
  lemma EmptySelectorMatchesNothing(s: Slots, rec: NodeRecord, test: (Pattern, string) -> bool)
    requires s.mask & AllBits == 0
    ensures Eval(Clauses(s), rec, test) == Ok(false)
  {
    NoBitsNoClauses(s);
  }

  /** The text fields read `properties.text`, class-name fields `className`, description and id fields the derived `props`. */
  lemma Readings(f: Field, rec: NodeRecord)
    ensures f in {TextContains, TextMatches, TextStartsWith} ==> Read(ReadingOf(f), rec) == Lookup(rec.properties, "text")
    ensures f in {ClassName, ClassNameMatches} ==> Read(ReadingOf(f), rec) == Some(rec.className)
    ensures f in {Description, DescriptionContains, DescriptionMatches, DescriptionStartsWith} ==>
              Read(ReadingOf(f), rec) == rec.props.description
    ensures f in {ResourceId, ResourceIdMatches} ==> Read(ReadingOf(f), rec) == rec.props.id
    ensures OpOf(f) == LooseEqual && f != ClassName ==> Read(ReadingOf(f), rec) == Lookup(rec.properties, Name(f))
  {
  }

  /** A selector holding one field is that field's test on the node. */
  lemma SingleField(s: Slots, f: Field, rec: NodeRecord, test: (Pattern, string) -> bool)
    requires InStep(s) && s.values.Keys == {f}
    ensures Eval(Clauses(s), rec, test) == ClauseResult(Clause(f, s.values[f]), rec, test)
  {
    TableOrder(f);
    TableInOrder();
    SingleSetField(s.mask, f, Fields);
    assert Clauses(s) == [Clause(f, s.values[f])];
  }

  // -------------------------------------------------------- the source text

  /** `codeEscape(v)` as `${val}` writes it: a string gets a quote in front and, as written, a `+` behind. */
  function CodeEscape(v: JsValue): (r: string)
    ensures !v.Str? ==> r == ToStr(v)
    ensures v.Str? ==> |r| == |v.s| + 2 && r[0] == '"' && r[1..|r| - 1] == v.s
    ensures v.Str? && PlainText(v.s) ==> LiteralEnd(r, 1) == None
  {
    match v
    case Str(s) =>
      var r := "\"" + s + "+";
      PlainRunsOff(r, 1);
      r
    case _ => ToStr(v)
  }

  /** A literal whose text runs to the end without a quote, backslash or line break never closes. */
  lemma {:induction false} PlainRunsOff(t: string, i: nat)
    ensures (forall k :: i <= k < |t| ==> Plain(t[k])) ==> LiteralEnd(t, i) == None
    decreases |t| - i
  {
    if i < |t| {
      PlainRunsOff(t, i + 1);
    }
  }

  /**
   * The end of a double-quoted JavaScript string literal whose text starts
   * at `i`: the index after the closing quote, or None when a line break or
   * the end of the text comes first.  A backslash takes the next character
   * with it.
   */
  function LiteralEnd(t: string, i: nat): Option<nat>
    decreases |t| - i
  {
    if i >= |t| then None
    else if t[i] == '"' then Some(i + 1)
    else if t[i] == '\n' || t[i] == '\r' then None
    else if t[i] == '\\' then LiteralEnd(t, i + 2)
    else LiteralEnd(t, i + 1)
  }

  /** Neither a quote, a backslash nor a line break. */
  predicate Plain(c: char) {
    c != '"' && c != '\\' && c != '\n' && c != '\r'
  }

  /** A literal that meets a line break before any quote or backslash never closes. */
  lemma {:induction false} LiteralRunsOff(t: string, i: nat, n: nat)
    requires i <= n < |t| && t[n] == '\n'
    requires forall k :: i <= k < n ==> Plain(t[k])
    ensures LiteralEnd(t, i) == None
    decreases n - i
  {
    if i < n {
      LiteralRunsOff(t, i + 1, n);
    }
  }

  /**
   * As written, a string value opens a literal that nothing on its line
   * closes: the text after `${val}` in every template (`) return true;`,
   * `)) return true;`, `.test(node.props.id)) return true;` and so on) holds
   * no quote or backslash, so the literal runs into the newline that ends
   * the line, whatever lines follow, and `new Function` throws a SyntaxError.
   */
  lemma StringValueUnterminated(s: string, after: string, rest: string)
    requires forall k :: 0 <= k < |s| ==> Plain(s[k])
    requires forall k :: 0 <= k < |after| ==> Plain(after[k])
    ensures var t := CodeEscape(Str(s)) + after + "\n" + rest;
            t[0] == '"' && LiteralEnd(t, 1) == None
  {
    var t := CodeEscape(Str(s)) + after + "\n" + rest;
    var n := 2 + |s| + |after|;
    assert t == "\"" + s + "+" + after + "\n" + rest;
    assert t[n] == '\n';
    forall k | 1 <= k < n
      ensures Plain(t[k])
    {
      if k <= |s| {
        assert t[k] == s[k - 1];
      } else if k == |s| + 1 {
        assert t[k] == '+';
      } else {
        assert t[k] == after[k - |s| - 2];
      }
    }
    LiteralRunsOff(t, 1, n);
  }

  /** `{className: "OK"}` writes `if (node.className == "OK+) return true;`, whose literal never closes. */
  lemma ClassNameOkUnterminated(rest: string)
    ensures var t := "if (node.className == " + CodeEscape(Str("OK")) + ") return true;" + "\n" + rest;
            t[22] == '"' && LiteralEnd(t, 23) == None
  {
    var pre := "if (node.className == ";
    var after := ") return true;";
    var tail := CodeEscape(Str("OK")) + after + "\n" + rest;
    assert forall k :: 0 <= k < |after| ==> Plain(after[k]);
    StringValueUnterminated("OK", after, rest);
    assert |pre| == 22;
    assert pre + CodeEscape(Str("OK")) + after + "\n" + rest == pre + tail;
    LiteralShift(pre, tail, 1);
  }

  /** Text in front does not change where a literal ends, only the index. */
  lemma {:induction false} LiteralShift(pre: string, t: string, i: nat)
    ensures LiteralEnd(pre + t, |pre| + i) == (match LiteralEnd(t, i) case None => None case Some(e) => Some(|pre| + e))
    decreases |t| - i
  {
    var u := pre + t;
    if i < |t| {
      assert u[|pre| + i] == t[i];
      if t[i] != '"' && t[i] != '\n' && t[i] != '\r' {
        if t[i] == '\\' {
          LiteralShift(pre, t, i + 2);
        } else {
          LiteralShift(pre, t, i + 1);
        }
      }
    }
  }

  // ---------------------------------------------------- the corrected escape

  function EscapeChar(c: char): string {
    if c == '"' then "\\\""
    else if c == '\\' then "\\\\"
    else if c == '\n' then "\\n"
    else if c == '\r' then "\\r"
    else [c]
  }

  function Escape(s: string): string {
    if s == [] then "" else EscapeChar(s[0]) + Escape(s[1..])
  }

  /** What the parser makes of a literal's text: `\n` and `\r` are line breaks, any other escaped character stands for itself. */
  function Unescape(e: string): string
    decreases |e|
  {
    if e == [] then ""
    else if e[0] == '\\' && |e| >= 2 then
      [if e[1] == 'n' then '\n' else if e[1] == 'r' then '\r' else e[1]] + Unescape(e[2..])
    else [e[0]] + Unescape(e[1..])
  }

  /** The string written as a closed literal, its quotes, backslashes and line breaks escaped. */
  function CodeEscapeFixed(v: JsValue): (r: string)
    ensures !v.Str? ==> r == ToStr(v)
    ensures v.Str? ==> |r| >= 2 && r[0] == '"' && r[|r| - 1] == '"' && Unescape(r[1..|r| - 1]) == v.s
  {
    match v
    case Str(s) =>
      EscapeRoundTrip(s);
      var r := "\"" + Escape(s) + "\"";
      assert r[1..|r| - 1] == Escape(s);
      r
    case _ => ToStr(v)
  }

  /** The parser reads the escaped text back as the string. */
  lemma {:induction false} EscapeRoundTrip(s: string)
    ensures Unescape(Escape(s)) == s
  {
    if s != [] {
      EscapeRoundTrip(s[1..]);
      var e := EscapeChar(s[0]);
      var t := e + Escape(s[1..]);
      if |e| == 2 {
        assert t[2..] == Escape(s[1..]);
      } else {
        assert t[1..] == Escape(s[1..]);
      }
    }
  }

  /** Escaped text holds no line break, and a backslash in it is never last. */
  lemma {:induction false} EscapeSkips(s: string, t: string, j: nat)
    requires j + |Escape(s)| <= |t|
    requires forall k :: 0 <= k < |Escape(s)| ==> t[j + k] == Escape(s)[k]
    ensures LiteralEnd(t, j) == LiteralEnd(t, j + |Escape(s)|)
    decreases |s|
  {
    if s != [] {
      var e := EscapeChar(s[0]);
      var rest := Escape(s[1..]);
      assert Escape(s) == e + rest;
      forall k | 0 <= k < |rest|
        ensures t[j + |e| + k] == rest[k]
      {
        assert t[j + (|e| + k)] == Escape(s)[|e| + k];
      }
      EscapeSkips(s[1..], t, j + |e|);
      assert t[j + 0] == Escape(s)[0] == e[0];
      if |e| == 2 {
        assert t[j] == '\\';
      }
    }
  }

  /** With the corrected escape the literal closes right after the escaped text, whatever follows it. */
  lemma FixedLiteralCloses(s: string, rest: string)
    ensures var t := CodeEscapeFixed(Str(s)) + rest;
            t[0] == '"' && LiteralEnd(t, 1) == Some(|CodeEscapeFixed(Str(s))|)
            && Unescape(t[1..|CodeEscapeFixed(Str(s))| - 1]) == s
  {
    var e := Escape(s);
    var t := CodeEscapeFixed(Str(s)) + rest;
    assert t == "\"" + e + "\"" + rest;
    forall k | 0 <= k < |e|
      ensures t[1 + k] == e[k]
    {
    }
    EscapeSkips(s, t, 1);
    assert t[1 + |e|] == '"';
    assert t[1..|CodeEscapeFixed(Str(s))| - 1] == e;
    EscapeRoundTrip(s);
  }

  // ----------------------------------------------------------- compilation

  /** A number put before `.test` is a numeric literal run into an identifier, which `new Function` refuses. */
  predicate NumberBeforeTest(c: Clause) {
    OpOf(c.field) == TestsPattern && c.value.Num?
  }

  /** Text that stays inside a literal: no quote, backslash or line break. */
  predicate PlainText(s: string) {
    forall k :: 0 <= k < |s| ==> Plain(s[k])
  }

  /**
   * The model can tell what `new Function` makes of the clause's line as
   * written: its value is no string, or a string of plain text.  A quote or
   * backslash in a string value ends or bends the literal, and the rest of
   * the value is then read as code (QuoteClosesLiteral).
   */
  predicate Decided(c: Clause) {
    c.value.Str? ==> PlainText(c.value.s)
  }

  /**
   * `getComparator()` as written.  None where some string value holds a
   * quote, backslash or line break: the generated source is then whatever
   * that text spells, which the model does not interpret.  Otherwise a
   * SyntaxError when some line holds a string (its literal never closes,
   * StringValueUnterminated) or a number before `.test`, else the clauses.
   */
  function CompileAsWritten(cs: seq<Clause>): (r: Option<Result<seq<Clause>>>)
    ensures r.None? <==> exists i :: 0 <= i < |cs| && !Decided(cs[i])
    ensures r == Some(Err(SyntaxError)) <==>
              (forall i :: 0 <= i < |cs| ==> Decided(cs[i]))
              && exists i :: 0 <= i < |cs| && (cs[i].value.Str? || NumberBeforeTest(cs[i]))
    ensures r.Some? ==> r.value.Err? || r.value == Ok(cs)
  {
    if exists i :: 0 <= i < |cs| && !Decided(cs[i]) then None
    else if exists i :: 0 <= i < |cs| && (cs[i].value.Str? || NumberBeforeTest(cs[i])) then Some(Err(SyntaxError))
    else Some(Ok(cs))
  }

  /**
   * Why a quote leaves the outcome open: a value such as
   * `a") return true; //` writes a line whose literal closes right after its
   * first character, so the rest of the value is read as code (here a
   * `return` and a comment), whatever text comes before and after.
   */
  lemma QuoteClosesLiteral(pre: string, v: string, after: string, f: Field)
    requires |v| >= 2 && Plain(v[0]) && v[1] == '"'
    ensures var t := pre + CodeEscape(Str(v)) + after;
            t[|pre|] == '"' && LiteralEnd(t, |pre| + 1) == Some(|pre| + 3)
            && CompileAsWritten([Clause(f, Str(v))]).None?
  {
    var e := CodeEscape(Str(v));
    assert e[1..|e| - 1] == v;
    assert e[1] == v[0] && e[2] == v[1];
    var tail := e + after;
    assert tail[0] == '"' && tail[1] == v[0] && tail[2] == '"';
    assert LiteralEnd(tail, 1) == Some(3);
    LiteralShift(pre, tail, 1);
    assert pre + e + after == pre + tail;
    var cs := [Clause(f, Str(v))];
    assert !Plain(cs[0].value.s[1]);
  }

  /** `getComparator()` with the corrected escape: only a number put before `.test` is refused. */
  function Compile(cs: seq<Clause>): (r: Result<seq<Clause>>)
    ensures r.Err? <==> exists i :: 0 <= i < |cs| && NumberBeforeTest(cs[i])
    ensures r.Err? ==> r.failure == SyntaxError
    ensures r.Ok? ==> r.value == cs
  {
    if exists i :: 0 <= i < |cs| && NumberBeforeTest(cs[i]) then Err(SyntaxError) else Ok(cs)
  }

  /**
   * As written, a selector holding plain text in a set field has no
   * comparator, as long as no string value of it ends its literal early.
   */
  lemma StringValueRefused(s: Slots, f: Field, text: string)
    requires HasBit(s.mask, f) && f in s.values && s.values[f] == Str(text)
    requires forall g :: g in s.values && s.values[g].Str? ==> PlainText(s.values[g].s)
    ensures CompileAsWritten(Clauses(s)) == Some(Err(SyntaxError))
  {
    ClausesInTableOrder(s, f);
    var k :| 0 <= k < |Clauses(s)| && Clauses(s)[k].field == f;
    assert Clauses(s)[k].value.Str?;
    forall i | 0 <= i < |Clauses(s)|
      ensures Decided(Clauses(s)[i])
    {
      assert Clauses(s)[i] == Clause(SetFields(s.mask)[i], ValueOf(s, SetFields(s.mask)[i]));
    }
  }

  /** With the corrected escape, `{text: t}` compiles and matches exactly the nodes whose text is t. */
  lemma TextSelectorMatches(s: Slots, t: string, rec: NodeRecord, test: (Pattern, string) -> bool)
    requires InStep(s) && s.values == map[Text := Str(t)]
    ensures Compile(Clauses(s)) == Ok(Clauses(s))
    ensures Eval(Clauses(s), rec, test) == Ok(Lookup(rec.properties, "text") == Some(t))
  {
    OnlyTextClause(s, t);
    var c := Clause(Text, Str(t));
    assert !NumberBeforeTest(c);
    assert Eval([c], rec, test) == ClauseResult(c, rec, test);
  }

  lemma OnlyTextClause(s: Slots, t: string)
    requires InStep(s) && s.values == map[Text := Str(t)]
    ensures Clauses(s) == [Clause(Text, Str(t))]
  {
    TableOrder(Text);
    TableInOrder();
    SingleSetField(s.mask, Text, Fields);
    assert SetFields(s.mask) == [Text];
  }
}
