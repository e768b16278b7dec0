/**
 * The `fields` table both Selector classes share: the 25 query fields of
 * UiAutomator's `UiSelector`, each with its name and its bit in the
 * selector's mask, and what `set`, `remove` and a query object do to a mask
 * and the field values kept beside it.
 */
module SelectorFields {
  import opened Js

  datatype Field =
    | Text | TextContains | TextMatches | TextStartsWith
    | ClassName | ClassNameMatches
    | Description | DescriptionContains | DescriptionMatches | DescriptionStartsWith
    | Checkable | Checked | Clickable | LongClickable | Scrollable | Enabled
    | Focusable | Focused | Selected
    | PackageName | PackageNameMatches
    | ResourceId | ResourceIdMatches
    | Index | Instance

  /** The table in its own order, the order `getComparator` visits it in. */
  const Fields: seq<Field> := [
    Text, TextContains, TextMatches, TextStartsWith,
    ClassName, ClassNameMatches,
    Description, DescriptionContains, DescriptionMatches, DescriptionStartsWith,
    Checkable, Checked, Clickable, LongClickable, Scrollable, Enabled,
    Focusable, Focused, Selected,
    PackageName, PackageNameMatches,
    ResourceId, ResourceIdMatches,
    Index, Instance]

  function Position(f: Field): nat {
    match f
    case Text => 0
    case TextContains => 1
    case TextMatches => 2
    case TextStartsWith => 3
    case ClassName => 4
    case ClassNameMatches => 5
    case Description => 6
    case DescriptionContains => 7
    case DescriptionMatches => 8
    case DescriptionStartsWith => 9
    case Checkable => 10
    case Checked => 11
    case Clickable => 12
    case LongClickable => 13
    case Scrollable => 14
    case Enabled => 15
    case Focusable => 16
    case Focused => 17
    case Selected => 18
    case PackageName => 19
    case PackageNameMatches => 20
    case ResourceId => 21
    case ResourceIdMatches => 22
    case Index => 23
    case Instance => 24
  }

  /** The key a query object uses for the field. */
  function Name(f: Field): string {
    match f
    case Text => "text"
    case TextContains => "textContains"
    case TextMatches => "textMatches"
    case TextStartsWith => "textStartsWith"
    case ClassName => "className"
    case ClassNameMatches => "classNameMatches"
    case Description => "description"
    case DescriptionContains => "descriptionContains"
    case DescriptionMatches => "descriptionMatches"
    case DescriptionStartsWith => "descriptionStartsWith"
    case Checkable => "checkable"
    case Checked => "checked"
    case Clickable => "clickable"
    case LongClickable => "longClickable"
    case Scrollable => "scrollable"
    case Enabled => "enabled"
    case Focusable => "focusable"
    case Focused => "focused"
    case Selected => "selected"
    case PackageName => "packageName"
    case PackageNameMatches => "packageNameMatches"
    case ResourceId => "resourceId"
    case ResourceIdMatches => "resourceIdMatches"
    case Index => "index"
    case Instance => "instance"
  }

  /** The field's mask bit, as the table writes it (UiSelector's MASK_* constants). */
  function Bit(f: Field): bv32 {
    match f
    case Text => 0x01
    case TextContains => 0x02
    case TextMatches => 0x04
    case TextStartsWith => 0x08
    case ClassName => 0x10
    case ClassNameMatches => 0x20
    case Description => 0x40
    case DescriptionContains => 0x80
    case DescriptionMatches => 0x0100
    case DescriptionStartsWith => 0x0200
    case Checkable => 0x0400
    case Checked => 0x0800
    case Clickable => 0x1000
    case LongClickable => 0x2000
    case Scrollable => 0x4000
    case Enabled => 0x8000
    case Focusable => 0x01_0000
    case Focused => 0x02_0000
    case Selected => 0x04_0000
    case PackageName => 0x08_0000
    case PackageNameMatches => 0x10_0000
    case ResourceId => 0x20_0000
    case ResourceIdMatches => 0x40_0000
    case Index => 0x80_0000
    case Instance => 0x0100_0000
  }

  /** Every field sits once in the table, at its position. */
  lemma TableOrder(f: Field)
    ensures |Fields| == 25 && Position(f) < 25 && Fields[Position(f)] == f
  {
  }

  /** Each entry is a single bit: the field at position `i` owns bit `i`, from 2^0 up to 2^24. */
  lemma BitIsPower(f: Field)
    ensures Bit(f) == (1 as bv32) << Position(f)
  {
  }

  /** No two fields share a position in the table. */
  lemma PositionsDistinct(f: Field, g: Field)
    requires f != g
    ensures Position(f) != Position(g)
  {
  }

  lemma ShiftsDisjoint(p: nat, q: nat)
    requires p < 25 && q < 25 && p != q
    ensures ((1 as bv32) << p) & ((1 as bv32) << q) == 0
  {
  }

  /** No two fields share a bit. */
  lemma BitsDisjoint(f: Field, g: Field)
    requires f != g
    ensures Bit(f) & Bit(g) == 0
  {
    BitIsPower(f);
    BitIsPower(g);
    PositionsDistinct(f, g);
    ShiftsDisjoint(Position(f), Position(g));
  }

  predicate HasBit(mask: bv32, f: Field) {
    mask & Bit(f) != 0
  }

  /** The 25 bits of the table; no other bit ever enters a mask. */
  const AllBits: bv32 := 0x01FF_FFFF

  /** Every field has a bit, inside the table's 25. */
  lemma BitInTable(f: Field)
    ensures Bit(f) != 0 && Bit(f) & !AllBits == 0
  {
  }

  /** ORing in a field's bit sets that bit and no other. */
  lemma SetBit(m: bv32, f: Field, g: Field)
    ensures HasBit(m | Bit(f), g) <==> g == f || HasBit(m, g)
  {
    if f == g {
      SetOwnBit(m, f);
    } else {
      OtherBitKept(m, f, g);
    }
  }

  lemma OtherBitKept(m: bv32, f: Field, g: Field)
    requires f != g
    ensures HasBit(m | Bit(f), g) == HasBit(m, g)
  {
    OrBitOther(m, f, g);
  }

  lemma SetOwnBit(m: bv32, f: Field)
    ensures HasBit(m | Bit(f), f)
  {
    BitInTable(f);
    OrBitSame(m, f);
  }

  /** Masking with a field's bit complemented clears that bit and no other. */
  lemma ClearBit(m: bv32, f: Field, g: Field)
    ensures HasBit(m & !Bit(f), g) <==> g != f && HasBit(m, g)
  {
    if f == g {
      ClearBitSame(m, f);
    } else {
      ClearBitOther(m, f, g);
    }
  }

  // The same facts as equations over the table's bits, each from one
  // identity on plain bit-vectors below.

  lemma OrBitSame(m: bv32, f: Field)
    ensures (m | Bit(f)) & Bit(f) == Bit(f)
  {
    OrSelf(m, Bit(f));
  }

  lemma OrBitOther(m: bv32, f: Field, g: Field)
    requires f != g
    ensures (m | Bit(f)) & Bit(g) == m & Bit(g)
  {
    BitsDisjoint(f, g);
    OrDisjoint(m, Bit(f), Bit(g));
  }

  lemma ClearBitSame(m: bv32, f: Field)
    ensures (m & !Bit(f)) & Bit(f) == 0
  {
    AndNotSelf(m, Bit(f));
  }

  lemma ClearBitOther(m: bv32, f: Field, g: Field)
    requires f != g
    ensures (m & !Bit(f)) & Bit(g) == m & Bit(g)
  {
    BitsDisjoint(f, g);
    AndNotDisjoint(m, Bit(f), Bit(g));
  }

  /** Setting a bit twice is setting it once. */
  lemma OrBitTwice(m: bv32, f: Field)
    ensures (m | Bit(f)) | Bit(f) == m | Bit(f)
  {
    OrIdempotent(m, Bit(f));
  }

  /** Clearing a bit the mask did not have, after setting it, gives the mask back. */
  lemma OrBitThenClear(m: bv32, f: Field)
    requires !HasBit(m, f)
    ensures (m | Bit(f)) & !Bit(f) == m
  {
    OrThenClear(m, Bit(f));
  }

  /** Setting or clearing a field's bit keeps a mask inside the table. */
  lemma BitsStayInTable(m: bv32, f: Field)
    requires m & !AllBits == 0
    ensures (m | Bit(f)) & !AllBits == 0
    ensures (m & !Bit(f)) & !AllBits == 0
  {
    BitInTable(f);
    OrInside(m, Bit(f), AllBits);
    AndInside(m, Bit(f), AllBits);
  }

  lemma OrSelf(m: bv32, a: bv32)
    ensures (m | a) & a == a
  {
  }

  lemma AndNotSelf(m: bv32, a: bv32)
    ensures (m & !a) & a == 0
  {
  }

  lemma OrDisjoint(m: bv32, a: bv32, b: bv32)
    requires a & b == 0
    ensures (m | a) & b == m & b
  {
  }

  lemma AndNotDisjoint(m: bv32, a: bv32, b: bv32)
    requires a & b == 0
    ensures (m & !a) & b == m & b
  {
  }

  lemma OrIdempotent(m: bv32, a: bv32)
    ensures (m | a) | a == m | a
  {
  }

  lemma OrInside(m: bv32, a: bv32, all: bv32)
    requires m & !all == 0 && a & !all == 0
    ensures (m | a) & !all == 0
  {
  }

  lemma AndInside(m: bv32, a: bv32, all: bv32)
    requires m & !all == 0
    ensures (m & !a) & !all == 0
  {
  }

  lemma OrThenClear(m: bv32, a: bv32)
    requires m & a == 0
    ensures (m | a) & !a == m
  {
  }

  // ---------------------------------------------------------- names

  /** `fields.hasOwnProperty(key)`, as the field the key names. */
  function FieldNamed(key: string): Option<Field> {
    NameFrom(key, 0)
  }

  function NameFrom(key: string, i: nat): Option<Field>
    requires i <= |Fields|
    decreases |Fields| - i
  {
    if i == |Fields| then None
    else if Name(Fields[i]) == key then Some(Fields[i])
    else NameFrom(key, i + 1)
  }

  lemma {:induction false} NameFromFinds(key: string, i: nat)
    requires i <= |Fields|
    ensures NameFrom(key, i).Some? ==> Name(NameFrom(key, i).value) == key
    ensures NameFrom(key, i).None? ==> forall f :: i <= Position(f) ==> Name(f) != key
    decreases |Fields| - i
  {
    if i < |Fields| && Name(Fields[i]) != key {
      NameFromFinds(key, i + 1);
      forall f | Position(f) == i
        ensures Name(f) != key
      {
        TableOrder(f);
      }
    }
  }

  /** Two fields never share a name. */
  lemma NamesDistinct(f: Field, g: Field)
    requires Name(f) == Name(g)
    ensures f == g
  {
  }

  /** A key names a field exactly when it is that field's name; no other key passes `hasOwnProperty`. */
  lemma FieldNamedIff(key: string, f: Field)
    ensures FieldNamed(key) == Some(f) <==> Name(f) == key
    ensures FieldNamed(key).None? <==> forall g :: Name(g) != key
  {
    NameFromFinds(key, 0);
    if FieldNamed(key).Some? {
      var g := FieldNamed(key).value;
      if Name(f) == key {
        NamesDistinct(g, f);
      }
    }
  }

  /** The field a key finds has that key for its name. */
  lemma NamedBy(key: string, f: Field)
    requires FieldNamed(key) == Some(f)
    ensures Name(f) == key
  {
    NameFromFinds(key, 0);
  }

  /** Looking a field up by its own name finds it. */
  lemma FieldNamedRoundTrip(f: Field)
    ensures FieldNamed(Name(f)) == Some(f)
  {
    FieldNamedIff(Name(f), f);
  }

  // ---------------------------------------------------------- slots

  /** A selector's `mask` with the field slots set on it. */
  datatype Slots = Slots(mask: bv32, values: map<Field, JsValue>)

  const NoSlots := Slots(0, map[])

  /** The mask has a bit for exactly the fields holding a value, and no bit outside the table. */
  ghost predicate InStep(s: Slots) {
    s.mask & !AllBits == 0 && forall f :: HasBit(s.mask, f) <==> f in s.values
  }

  /** `set(key, value)`: a known field stores the value and ORs in its bit; an unknown key does nothing. */
  function Assign(s: Slots, key: string, value: JsValue): Slots {
    match FieldNamed(key)
    case None => s
    case Some(f) => Slots(s.mask | Bit(f), s.values[f := value])
  }

  /** `remove(key)`: a known field loses its value and its bit; an unknown key does nothing. */
  function Unassign(s: Slots, key: string): Slots {
    match FieldNamed(key)
    case None => s
    case Some(f) => Slots(s.mask & !Bit(f), s.values - {f})
  }

  /** `set` on a field sets that field's bit and value and no other. */
  lemma AssignField(s: Slots, f: Field, value: JsValue)
    ensures Assign(s, Name(f), value).values == s.values[f := value]
    ensures forall g :: HasBit(Assign(s, Name(f), value).mask, g) <==> g == f || HasBit(s.mask, g)
  {
    FieldNamedRoundTrip(f);
    AssignKnown(s, Name(f), f, value);
  }

  /** `remove` on a field clears that field's bit and value and no other. */
  lemma UnassignField(s: Slots, f: Field)
    ensures Unassign(s, Name(f)).values == s.values - {f}
    ensures forall g :: HasBit(Unassign(s, Name(f)).mask, g) <==> g != f && HasBit(s.mask, g)
  {
    FieldNamedRoundTrip(f);
    UnassignKnown(s, Name(f), f);
  }

  /** `set` on a field stores the value in that field's slot. */
  lemma AssignValue(s: Slots, f: Field, value: JsValue)
    ensures Assign(s, Name(f), value).values == s.values[f := value]
  {
    FieldNamedRoundTrip(f);
  }

  lemma AssignKnown(s: Slots, key: string, f: Field, value: JsValue)
    requires FieldNamed(key) == Some(f)
    ensures Assign(s, key, value).values == s.values[f := value]
    ensures forall g :: HasBit(Assign(s, key, value).mask, g) <==> g == f || HasBit(s.mask, g)
  {
    SetBits(s.mask, f);
  }

  lemma UnassignKnown(s: Slots, key: string, f: Field)
    requires FieldNamed(key) == Some(f)
    ensures Unassign(s, key).values == s.values - {f}
    ensures forall g :: HasBit(Unassign(s, key).mask, g) <==> g != f && HasBit(s.mask, g)
  {
    ClearBits(s.mask, f);
  }

  lemma SetBits(m: bv32, f: Field)
    ensures forall g :: HasBit(m | Bit(f), g) <==> g == f || HasBit(m, g)
  {
    forall g
      ensures HasBit(m | Bit(f), g) <==> g == f || HasBit(m, g)
    {
      SetBit(m, f, g);
    }
  }

  lemma ClearBits(m: bv32, f: Field)
    ensures forall g :: HasBit(m & !Bit(f), g) <==> g != f && HasBit(m, g)
  {
    forall g
      ensures HasBit(m & !Bit(f), g) <==> g != f && HasBit(m, g)
    {
      ClearBit(m, f, g);
    }
  }

  /** `set` and `remove` of a key that names no field change nothing. */
  lemma UnknownKey(s: Slots, key: string, value: JsValue)
    requires forall f :: Name(f) != key
    ensures Assign(s, key, value) == s && Unassign(s, key) == s
  {
    FieldNamedIff(key, Text);
  }

  /** `set` keeps the mask and the values in step. */
  lemma AssignInStep(s: Slots, key: string, value: JsValue)
    requires InStep(s)
    ensures InStep(Assign(s, key, value))
  {
    match FieldNamed(key)
    case None =>
    case Some(f) =>
      AssignKnown(s, key, f, value);
      BitsStayInTable(s.mask, f);
  }

  /** `remove` keeps the mask and the values in step. */
  lemma UnassignInStep(s: Slots, key: string)
    requires InStep(s)
    ensures InStep(Unassign(s, key))
  {
    match FieldNamed(key)
    case None =>
    case Some(f) =>
      UnassignKnown(s, key, f);
      BitsStayInTable(s.mask, f);
  }

  /** Setting a key twice leaves the mask of one `set` and the last value. */
  lemma AssignTwice(s: Slots, key: string, v: JsValue, w: JsValue)
    ensures Assign(Assign(s, key, v), key, w) == Assign(s, key, w)
  {
    match FieldNamed(key)
    case None =>
    case Some(f) =>
      SlotsTwice(s, f, v, w);
  }

  lemma SlotsTwice(s: Slots, f: Field, v: JsValue, w: JsValue)
    ensures Slots((s.mask | Bit(f)) | Bit(f), s.values[f := v][f := w]) == Slots(s.mask | Bit(f), s.values[f := w])
  {
    OrBitTwice(s.mask, f);
    assert s.values[f := v][f := w] == s.values[f := w];
  }

  /** `remove` undoes a `set` of a field the selector did not hold. */
  lemma AssignThenUnassign(s: Slots, key: string, v: JsValue)
    requires InStep(s)
    requires FieldNamed(key).Some? ==> FieldNamed(key).value !in s.values
    ensures Unassign(Assign(s, key, v), key) == s
  {
    match FieldNamed(key)
    case None =>
    case Some(f) =>
      assert !HasBit(s.mask, f);
      OrBitThenClear(s.mask, f);
      assert s.values[f := v] - {f} == s.values;
  }

  /** `set` of another key leaves a field's slot as it was. */
  lemma AssignOther(s: Slots, key: string, v: JsValue, f: Field)
    requires key != Name(f)
    ensures f in Assign(s, key, v).values <==> f in s.values
    ensures f in s.values ==> Assign(s, key, v).values[f] == s.values[f]
  {
    match FieldNamed(key)
    case None =>
    case Some(g) =>
      NamedBy(key, g);
  }

  // ---------------------------------------------------------- queries

  /** A query object's entries, in the order `for (const key in query)` visits them. */
  type Query = seq<(string, JsValue)>

  /**
   * Why the constructor throws on one entry: a key that is not a field, or,
   * where `checkRegex` holds, a `...Matches` key whose value is not a RegExp.
   */
  function QueryProblem(key: string, value: JsValue, checkRegex: bool): Option<string> {
    if FieldNamed(key).None? then Some("query " + key + " is not allowed.")
    else if checkRegex && EndsWith(key, "Matches") && !value.Regex? then Some(key + " field requires RegExp.")
    else None
  }

  /** An entry passes exactly when its key is a field and, if checked, a `...Matches` key holds a RegExp. */
  lemma QueryProblemIff(key: string, value: JsValue, checkRegex: bool)
    ensures QueryProblem(key, value, checkRegex).None? <==>
              (exists f :: Name(f) == key) && (checkRegex && EndsWith(key, "Matches") ==> value.Regex?)
  {
    FieldNamedIff(key, Text);
    if FieldNamed(key).Some? {
      assert Name(FieldNamed(key).value) == key by {
        FieldNamedIff(key, FieldNamed(key).value);
      }
    }
  }

  /** The message of the first entry the constructor throws on. */
  function QueryError(q: Query, checkRegex: bool): Option<string> {
    FirstSome((e: (string, JsValue)) => QueryProblem(e.0, e.1, checkRegex), q)
  }

  /** The constructor throws exactly when some entry is a problem, and then on the first one. */
  lemma QueryErrorFirst(q: Query, checkRegex: bool)
    ensures QueryError(q, checkRegex).None? <==>
              forall i :: 0 <= i < |q| ==> QueryProblem(q[i].0, q[i].1, checkRegex).None?
    ensures QueryError(q, checkRegex).Some? ==>
              exists i :: 0 <= i < |q| && QueryProblem(q[i].0, q[i].1, checkRegex) == QueryError(q, checkRegex)
                          && forall j :: 0 <= j < i ==> QueryProblem(q[j].0, q[j].1, checkRegex).None?
  {
    FirstSomeFirst((e: (string, JsValue)) => QueryProblem(e.0, e.1, checkRegex), q);
  }

  /** The first `Some` that `check` gives along `xs`, in order. */
  function FirstSome<T, E>(check: T -> Option<E>, xs: seq<T>): Option<E> {
    if xs == [] then None
    else match FirstSome(check, xs[..|xs| - 1])
      case Some(e) => Some(e)
      case None => check(xs[|xs| - 1])
  }

  lemma {:induction false} FirstSomeFirst<T, E>(check: T -> Option<E>, xs: seq<T>)
    ensures FirstSome(check, xs).None? <==> forall i :: 0 <= i < |xs| ==> check(xs[i]).None?
    ensures FirstSome(check, xs).Some? ==>
              exists i :: 0 <= i < |xs| && check(xs[i]) == FirstSome(check, xs)
                          && forall j :: 0 <= j < i ==> check(xs[j]).None?
  {
    if xs != [] {
      var n := |xs| - 1;
      var p := xs[..n];
      FirstSomeFirst(check, p);
      if FirstSome(check, p).Some? {
        var i :| 0 <= i < n && check(p[i]) == FirstSome(check, p)
                 && forall j :: 0 <= j < i ==> check(p[j]).None?;
        assert xs[i] == p[i];
        assert forall j :: 0 <= j < i ==> xs[j] == p[j];
      } else {
        assert forall j :: 0 <= j < n ==> xs[j] == p[j];
      }
    }
  }

  /** Entry i is the first problem of the query, so the constructor throws its message. */
  lemma QueryErrorAt(q: Query, i: nat, checkRegex: bool)
    requires i < |q| && QueryProblem(q[i].0, q[i].1, checkRegex).Some?
    requires forall j :: 0 <= j < i ==> QueryProblem(q[j].0, q[j].1, checkRegex).None?
    ensures QueryError(q, checkRegex) == QueryProblem(q[i].0, q[i].1, checkRegex)
  {
    QueryErrorFirst(q, checkRegex);
    var k :| 0 <= k < |q| && QueryProblem(q[k].0, q[k].1, checkRegex) == QueryError(q, checkRegex)
             && forall j :: 0 <= j < k ==> QueryProblem(q[j].0, q[j].1, checkRegex).None?;
    assert k == i;
  }

  /**
   * `new Selector(query)`: a falsy query gives the empty selector; otherwise
   * the first entry with a problem throws its message, and a query without
   * one gives the slots of all its entries.
   */
  function Construct(query: Option<Query>, checkRegex: bool): Result<Slots> {
    match query
    case None => Ok(NoSlots)
    case Some(q) =>
      match QueryError(q, checkRegex)
      case Some(message) => Err(Thrown(message))
      case None => Ok(Applied(q))
  }

  /**
   * The constructor throws exactly when some entry names no field or (when
   * checked) puts a non-RegExp under a `...Matches` key; what it builds is in
   * step and holds, for each field, the value of the last entry naming it.
   */
  lemma ConstructOutcome(query: Option<Query>, checkRegex: bool, f: Field)
    ensures Construct(query, checkRegex).Err? <==>
              query.Some? && exists i :: 0 <= i < |query.value| && QueryProblem(query.value[i].0, query.value[i].1, checkRegex).Some?
    ensures Construct(query, checkRegex).Err? ==> Construct(query, checkRegex).failure.Thrown?
    ensures Construct(query, checkRegex).Ok? ==> InStep(Construct(query, checkRegex).value)
    ensures Construct(query, checkRegex).Ok? ==>
              (f in Construct(query, checkRegex).value.values <==> query.Some? && exists i :: 0 <= i < |query.value| && query.value[i].0 == Name(f))
  {
    if query.Some? {
      QueryErrorFirst(query.value, checkRegex);
      AppliedInStep(query.value);
      AppliedHas(query.value, f);
    }
  }

  /** The slots after `set` of every entry, in order. */
  function Applied(q: Query): Slots {
    if q == [] then NoSlots else Assign(Applied(q[..|q| - 1]), q[|q| - 1].0, q[|q| - 1].1)
  }

  /** A query's slots are in step. */
  lemma {:induction false} AppliedInStep(q: Query)
    ensures InStep(Applied(q))
  {
    if q != [] {
      AppliedInStep(q[..|q| - 1]);
      AssignInStep(Applied(q[..|q| - 1]), q[|q| - 1].0, q[|q| - 1].1);
    }
  }

  /** A query sets a field exactly when one of its keys names it. */
  lemma {:induction false} AppliedHas(q: Query, f: Field)
    ensures f in Applied(q).values <==> exists i :: 0 <= i < |q| && q[i].0 == Name(f)
  {
    if q != [] {
      var n := |q| - 1;
      var p := q[..n];
      AppliedHas(p, f);
      assert Applied(q) == Assign(Applied(p), q[n].0, q[n].1);
      if q[n].0 == Name(f) {
        AssignValue(Applied(p), f, q[n].1);
      } else {
        AssignOther(Applied(p), q[n].0, q[n].1, f);
        KeyInPrefix(q, p, Name(f));
      }
    }
  }

  /** A key other than the last entry's appears in a query exactly when it appears before the last entry. */
  lemma KeyInPrefix(q: Query, p: Query, key: string)
    requires q != [] && p == q[..|q| - 1] && q[|q| - 1].0 != key
    ensures (exists i :: 0 <= i < |q| && q[i].0 == key) <==> (exists i :: 0 <= i < |p| && p[i].0 == key)
  {
    if exists i :: 0 <= i < |q| && q[i].0 == key {
      var i :| 0 <= i < |q| && q[i].0 == key;
      assert p[i] == q[i];
    }
    if exists i :: 0 <= i < |p| && p[i].0 == key {
      var i :| 0 <= i < |p| && p[i].0 == key;
      assert q[i] == p[i];
    }
  }

  /** A field keeps the value of the last entry naming it. */
  lemma {:induction false} AppliedLast(q: Query, f: Field, i: nat)
    requires i < |q| && q[i].0 == Name(f)
    requires forall j :: i < j < |q| ==> q[j].0 != Name(f)
    ensures f in Applied(q).values && Applied(q).values[f] == q[i].1
  {
    var n := |q| - 1;
    var p := q[..n];
    if i == n {
      AssignValue(Applied(p), f, q[n].1);
    } else {
      assert p[i] == q[i];
      assert forall j :: i < j < n ==> p[j] == q[j];
      AppliedLast(p, f, i);
      AssignOther(Applied(p), q[n].0, q[n].1, f);
    }
  }
}
