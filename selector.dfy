/**
 * The UiAutomator `Selector` object: a bit mask of the fields set, one
 * property per set field, and the chain of child and sibling selectors.
 * lib/uiautomator/Selector.js and src/uiautomator/Selector.js define the
 * same object; the newer one also refuses a non-RegExp under a `...Matches`
 * key and builds the comparator the view server uses.  The model keeps one
 * class and records in `checkRegex` which of the two built the object.
 */
module UiSelector {
  import opened Js
  import opened SelectorFields
  import opened Comparator

  class Selector {
    /** True for the lib/uiautomator class, false for the src/uiautomator one. */
    const checkRegex: bool
    var mask: bv32
    /** The field properties the object carries (`this[key]`). */
    var values: map<Field, JsValue>
    var childOrSibling: seq<string>
    var childOrSiblingSelector: seq<Selector>

    function State(): Slots
      reads this
    {
      Slots(mask, values)
    }

    /** Mask and field properties agree. */
    ghost predicate Valid()
      reads this
    {
      InStep(State())
    }

    /** Every relation pushed has its selector. */
    predicate Chained()
      reads this
    {
      |childOrSibling| == |childOrSiblingSelector|
    }

    /** `new Selector()` with a falsy query. */
    constructor Empty(checkRegex: bool)
      ensures this.checkRegex == checkRegex
      ensures State() == NoSlots && Valid()
      ensures childOrSibling == [] && childOrSiblingSelector == []
    {
      this.checkRegex := checkRegex;
      mask := 0;
      values := map[];
      childOrSibling := [];
      childOrSiblingSelector := [];
      new;
      assert forall f :: !HasBit(0, f);
    }

    /**
     * `new Selector(query)`: the entries are checked and set one at a time,
     * in the order the query enumerates them; the first bad entry throws.
     */
    static method New(query: Option<Query>, checkRegex: bool) returns (r: Result<Selector>)
      ensures r.Err? <==> Construct(query, checkRegex).Err?
      ensures r.Err? ==> r.failure == Construct(query, checkRegex).failure
      ensures r.Ok? ==> fresh(r.value) && r.value.checkRegex == checkRegex && r.value.Valid()
                        && r.value.State() == Construct(query, checkRegex).value
                        && r.value.childOrSibling == [] && r.value.childOrSiblingSelector == []
    {
      var s := new Selector.Empty(checkRegex);
      if query.None? {
        return Ok(s);
      }
      var q := query.value;
      var i := 0;
      while i < |q|
        invariant 0 <= i <= |q|
        invariant s.State() == Applied(q[..i]) && s.Valid()
        invariant s.checkRegex == checkRegex && s.childOrSibling == [] && s.childOrSiblingSelector == []
        invariant forall j :: 0 <= j < i ==> QueryProblem(q[j].0, q[j].1, checkRegex).None?
      {
        var problem := QueryProblem(q[i].0, q[i].1, checkRegex);
        if problem.Some? {
          ConstructThrows(q, i, checkRegex);
          return Err(Thrown(problem.value));
        }
        AppliedStep(q, i);
        s.Set(q[i].0, q[i].1);
        assert forall j :: 0 <= j <= i ==> QueryProblem(q[j].0, q[j].1, checkRegex).None?;
        i := i + 1;
      }
      ConstructBuilds(q, checkRegex);
      r := Ok(s);
    }

    /** `set(key, value)` */
    method Set(key: string, value: JsValue)
      modifies this
      ensures State() == Assign(old(State()), key, value)
      ensures old(Valid()) ==> Valid()
      ensures childOrSibling == old(childOrSibling) && childOrSiblingSelector == old(childOrSiblingSelector)
    {
      if InStep(State()) {
        AssignInStep(State(), key, value);
      }
      match FieldNamed(key)
      case None =>
      case Some(f) =>
        values := values[f := value];
        mask := mask | Bit(f);
    }

    /** `remove(key)` */
    method Remove(key: string)
      modifies this
      ensures State() == Unassign(old(State()), key)
      ensures old(Valid()) ==> Valid()
      ensures childOrSibling == old(childOrSibling) && childOrSiblingSelector == old(childOrSiblingSelector)
    {
      if InStep(State()) {
        UnassignInStep(State(), key);
      }
      match FieldNamed(key)
      case None =>
      case Some(f) =>
        values := values - {f};
        mask := mask & !Bit(f);
    }

    /** `child(query)` */
    method Child(query: Option<Query>) returns (r: Result<()>)
      modifies this
      ensures r.Err? <==> Construct(query, checkRegex).Err?
      ensures State() == old(State()) && childOrSibling == old(childOrSibling) + ["child"]
      ensures r.Err? ==> childOrSiblingSelector == old(childOrSiblingSelector)
      ensures r.Ok? ==> |childOrSiblingSelector| == |old(childOrSiblingSelector)| + 1
                        && childOrSiblingSelector[..|old(childOrSiblingSelector)|] == old(childOrSiblingSelector)
                        && Pushed(query)
    {
      r := PushRelation("child", query);
    }

    /** `sibling(query)` */
    method Sibling(query: Option<Query>) returns (r: Result<()>)
      modifies this
      ensures r.Err? <==> Construct(query, checkRegex).Err?
      ensures State() == old(State()) && childOrSibling == old(childOrSibling) + ["sibling"]
      ensures r.Err? ==> childOrSiblingSelector == old(childOrSiblingSelector)
      ensures r.Ok? ==> |childOrSiblingSelector| == |old(childOrSiblingSelector)| + 1
                        && childOrSiblingSelector[..|old(childOrSiblingSelector)|] == old(childOrSiblingSelector)
                        && Pushed(query)
    {
      r := PushRelation("sibling", query);
    }

    /** The last selector of the chain is a fresh one of this class built from the query. */
    ghost predicate Pushed(query: Option<Query>)
      reads this, childOrSiblingSelector
    {
      |childOrSiblingSelector| > 0
      && var last := childOrSiblingSelector[|childOrSiblingSelector| - 1];
         last != this && last.checkRegex == checkRegex && Construct(query, checkRegex).Ok?
         && last.State() == Construct(query, checkRegex).value
         && last.childOrSibling == [] && last.childOrSiblingSelector == []
    }

    /**
     * `child`/`sibling` as written: the relation name is pushed before the
     * query is checked, so a constructor that throws leaves one more name
     * than selectors in the chain.
     */
    method PushRelation(relation: string, query: Option<Query>) returns (r: Result<()>)
      modifies this
      ensures r.Err? <==> Construct(query, checkRegex).Err?
      ensures State() == old(State()) && childOrSibling == old(childOrSibling) + [relation]
      ensures r.Err? ==> childOrSiblingSelector == old(childOrSiblingSelector)
      ensures r.Ok? ==> |childOrSiblingSelector| == |old(childOrSiblingSelector)| + 1
                        && childOrSiblingSelector[..|old(childOrSiblingSelector)|] == old(childOrSiblingSelector)
                        && Pushed(query)
      ensures old(Chained()) && r.Err? ==> |childOrSibling| == |childOrSiblingSelector| + 1
    {
      childOrSibling := childOrSibling + [relation];
      var built := New(query, checkRegex);
      match built
      case Err(e) =>
        return Err(e);
      case Ok(s) =>
        childOrSiblingSelector := childOrSiblingSelector + [s];
        return Ok(());
    }

    /** `child`/`sibling` checking the query first: the chain stays in step whether or not it throws. */
    method PushRelationChecked(relation: string, query: Option<Query>) returns (r: Result<()>)
      modifies this
      ensures r.Err? <==> Construct(query, checkRegex).Err?
      ensures State() == old(State())
      ensures r.Err? ==> childOrSibling == old(childOrSibling) && childOrSiblingSelector == old(childOrSiblingSelector)
      ensures r.Ok? ==> childOrSibling == old(childOrSibling) + [relation]
                        && |childOrSiblingSelector| == |old(childOrSiblingSelector)| + 1
                        && childOrSiblingSelector[..|old(childOrSiblingSelector)|] == old(childOrSiblingSelector)
                        && Pushed(query)
      ensures old(Chained()) ==> Chained()
    {
      var built := New(query, checkRegex);
      match built
      case Err(e) =>
        return Err(e);
      case Ok(s) =>
        childOrSibling := childOrSibling + [relation];
        childOrSiblingSelector := childOrSiblingSelector + [s];
        return Ok(());
    }

    /**
     * `clone()`: a new selector with the same mask and field properties and
     * copies of the two chain arrays; the chained selectors themselves are
     * shared, not copied.
     */
    method Clone() returns (c: Selector)
      ensures fresh(c) && c.checkRegex == checkRegex
      ensures c.State() == State() && (Valid() ==> c.Valid())
      ensures c.childOrSibling == childOrSibling && c.childOrSiblingSelector == childOrSiblingSelector
    {
      c := new Selector.Empty(checkRegex);
      c.values := values;
      c.mask := mask;
      c.childOrSibling := childOrSibling;
      c.childOrSiblingSelector := childOrSiblingSelector;
    }

    /**
     * `getComparator()`: one clause per field whose bit the mask holds, in
     * table order, each with the field's property; then the whole is
     * compiled as written: a SyntaxError for plain text in any string
     * value, an outcome the model leaves open (None) where a string value
     * holds a quote, backslash or line break.
     */
    method GetComparator() returns (r: Option<Result<seq<Clause>>>)
      requires checkRegex
      ensures r == CompileAsWritten(Clauses(State()))
    {
      var code: seq<Clause> := [];
      ghost var done: seq<Field> := [];
      var rest := Fields;
      while rest != []
        invariant done + SetFieldsOf(mask, rest) == SetFields(mask)
        invariant |code| == |done|
        invariant forall k :: 0 <= k < |code| ==> code[k] == Clause(done[k], ValueOf(State(), done[k]))
        decreases |rest|
      {
        var f := rest[0];
        SetFieldsStep(mask, done, rest, SetFields(mask));
        if HasBit(mask, f) {
          code := code + [Clause(f, if f in values then values[f] else Undefined)];
          done := done + [f];
        }
        rest := rest[1..];
      }
      assert code == Clauses(State());
      r := CompileAsWritten(code);
    }
  }

  /** Entry i of the query is the last one the loop of `new Selector` sets before i + 1. */
  lemma AppliedStep(q: Query, i: nat)
    requires i < |q|
    ensures Applied(q[..i + 1]) == Assign(Applied(q[..i]), q[i].0, q[i].1)
  {
    assert q[..i + 1][..i] == q[..i];
  }

  lemma ConstructThrows(q: Query, i: nat, checkRegex: bool)
    requires i < |q| && QueryProblem(q[i].0, q[i].1, checkRegex).Some?
    requires forall j :: 0 <= j < i ==> QueryProblem(q[j].0, q[j].1, checkRegex).None?
    ensures Construct(Some(q), checkRegex) == Err(Thrown(QueryProblem(q[i].0, q[i].1, checkRegex).value))
  {
    QueryErrorAt(q, i, checkRegex);
  }

  lemma ConstructBuilds(q: Query, checkRegex: bool)
    requires forall j :: 0 <= j < |q| ==> QueryProblem(q[j].0, q[j].1, checkRegex).None?
    ensures Construct(Some(q), checkRegex) == Ok(Applied(q[..|q|]))
  {
    QueryErrorFirst(q, checkRegex);
    assert q[..|q|] == q;
  }

  /** One step of the loop of `getComparator` keeps the listed fields a prefix of all set fields. */
  lemma SetFieldsStep(mask: bv32, done: seq<Field>, rest: seq<Field>, all: seq<Field>)
    requires rest != [] && done + SetFieldsOf(mask, rest) == all
    ensures (if HasBit(mask, rest[0]) then done + [rest[0]] else done) + SetFieldsOf(mask, rest[1..]) == all
  {
    if HasBit(mask, rest[0]) {
      assert done + SetFieldsOf(mask, rest) == (done + [rest[0]]) + SetFieldsOf(mask, rest[1..]);
    }
  }

  /**
   * The src/uiautomator class refuses only keys that name no field: any
   * query whose keys all name fields builds, whatever the values.
   */
  lemma LegacyBuildsAnyValues(q: Query)
    requires forall i :: 0 <= i < |q| ==> FieldNamed(q[i].0).Some?
    ensures Construct(Some(q), false) == Ok(Applied(q))
  {
    QueryErrorFirst(q, false);
    assert QueryError(q, false) == None;
  }

  /** A non-RegExp under a `...Matches` key is refused by the lib/uiautomator class and set by the src/uiautomator one. */
  lemma MatchesNeedsRegexOnlyInLib(key: string, value: JsValue)
    requires FieldNamed(key).Some? && EndsWith(key, "Matches") && !value.Regex?
    ensures Construct(Some([(key, value)]), true) == Err(Thrown(key + " field requires RegExp."))
    ensures Construct(Some([(key, value)]), false) == Ok(Assign(NoSlots, key, value))
  {
    QueryErrorAt([(key, value)], 0, true);
    LegacyBuildsAnyValues([(key, value)]);
    assert [(key, value)][..0] == [];
  }
}
