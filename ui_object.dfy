/**
 * The UiAutomator `UiObject`: a handle on the views a selector picks out.
 * Its methods derive new handles from clones of the selector (`at`,
 * `child`, `sibling`) or send one JSON-RPC call whose parameter list they
 * build from their arguments and defaults.  The call itself is not part of
 * the model: each operation yields the request it would send.
 */
module UiObjects {
  import opened Js
  import opened SelectorFields
  import opened UiSelector

  /** A parameter of an RPC call: the object's selector, or a plain value. */
  datatype Arg = SelectorArg | Value(v: JsValue)

  /** `rpc.call(name, args)` */
  datatype Request = Request(name: string, args: seq<Arg>)

  const IndexMessage := "index must be at least 0"
  const SwipeMessage := "You must give the direction. (left or right or up or down)"

  class UiObject {
    var selector: Selector

    /** `new UiObject(uiAutomator, selector)`: a missing selector is replaced by an empty one. */
    constructor (given: Option<Selector>)
      ensures given.Some? ==> selector == given.value
      ensures given.None? ==> fresh(selector) && selector.checkRegex && selector.State() == NoSlots
                              && selector.childOrSibling == [] && selector.childOrSiblingSelector == []
    {
      if given.Some? {
        selector := given.value;
      } else {
        selector := new Selector.Empty(true);
      }
    }

    /**
     * `at(index)`: anything but a non-negative number throws; otherwise a new
     * object on a clone of the selector whose `instance` field is the index.
     */
    method At(index: JsValue) returns (r: Result<UiObject>)
      ensures r.Err? <==> !(index.Num? && index.n >= 0)
      ensures r.Err? ==> r.failure == Thrown(IndexMessage)
      ensures r.Ok? ==> fresh(r.value) && fresh(r.value.selector)
                        && r.value.selector.State() == Assign(selector.State(), "instance", index)
                        && r.value.selector.checkRegex == selector.checkRegex
                        && r.value.selector.childOrSibling == selector.childOrSibling
                        && r.value.selector.childOrSiblingSelector == selector.childOrSiblingSelector
    {
      if !(index.Num? && index.n >= 0) {
        return Err(Thrown(IndexMessage));
      }
      var c := selector.Clone();
      c.Set("instance", index);
      var o := new UiObject(Some(c));
      r := Ok(o);
    }

    /** `child(query)` */
    method Child(query: Option<Query>) returns (r: Result<UiObject>)
      ensures r.Err? <==> Construct(query, selector.checkRegex).Err?
      ensures r.Ok? ==> fresh(r.value) && fresh(r.value.selector) && r.value.selector.State() == NoSlots
                        && r.value.selector.childOrSibling == [] && r.value.selector.childOrSiblingSelector == []
    {
      r := Related("child", query);
    }

    /** `sibling(query)` */
    method Sibling(query: Option<Query>) returns (r: Result<UiObject>)
      ensures r.Err? <==> Construct(query, selector.checkRegex).Err?
      ensures r.Ok? ==> fresh(r.value) && fresh(r.value.selector) && r.value.selector.State() == NoSlots
                        && r.value.selector.childOrSibling == [] && r.value.selector.childOrSiblingSelector == []
    {
      r := Related("sibling", query);
    }

    /**
     * `child`/`sibling` as written: the clone's `child` returns nothing, so
     * the new object is built without a selector and gets an empty one; the
     * relation and every field of this object's selector are lost.
     */
    method Related(relation: string, query: Option<Query>) returns (r: Result<UiObject>)
      ensures r.Err? <==> Construct(query, selector.checkRegex).Err?
      ensures r.Ok? ==> fresh(r.value) && fresh(r.value.selector) && r.value.selector.State() == NoSlots
                        && r.value.selector.childOrSibling == [] && r.value.selector.childOrSiblingSelector == []
    {
      var c := selector.Clone();
      var pushed := c.PushRelation(relation, query);
      if pushed.Err? {
        return Err(pushed.failure);
      }
      var o := new UiObject(None);
      r := Ok(o);
    }

    /** `child`/`sibling` handing over the extended clone: the new selector is this one plus the relation. */
    method RelatedKept(relation: string, query: Option<Query>) returns (r: Result<UiObject>)
      ensures r.Err? <==> Construct(query, selector.checkRegex).Err?
      ensures r.Ok? ==> fresh(r.value) && fresh(r.value.selector)
                        && r.value.selector.State() == selector.State()
                        && r.value.selector.childOrSibling == selector.childOrSibling + [relation]
                        && |r.value.selector.childOrSiblingSelector| == |selector.childOrSiblingSelector| + 1
                        && r.value.selector.childOrSiblingSelector[..|selector.childOrSiblingSelector|] == selector.childOrSiblingSelector
                        && r.value.selector.Pushed(query)
    {
      var c := selector.Clone();
      var pushed := c.PushRelation(relation, query);
      if pushed.Err? {
        return Err(pushed.failure);
      }
      var o := new UiObject(Some(c));
      r := Ok(o);
    }
  }

  /** `at(index)` selects by instance: the clone has the instance bit and value, and every other field as before. */
  lemma AtSelectsInstance(s: Slots, index: JsValue)
    ensures Assign(s, "instance", index).values == s.values[Instance := index]
    ensures forall g :: HasBit(Assign(s, "instance", index).mask, g) <==> g == Instance || HasBit(s.mask, g)
  {
    AssignField(s, Instance, index);
  }

  // ------------------------------------------------------------- requests

  /** `click(action)`: the action is sent only when it is truthy. */
  function Click(action: JsValue): (r: Request)
    ensures r.name == "click" && |r.args| >= 1 && r.args[0] == SelectorArg
    ensures |r.args| == 2 <==> Truthy(action)
    ensures |r.args| == 2 ==> r.args[1] == Value(action)
    ensures |r.args| <= 2
  {
    Request("click", if Truthy(action) then [SelectorArg, Value(action)] else [SelectorArg])
  }

  /** `clickAndWait(timeout)`: the timeout is passed on as given, undefined included. */
  function ClickAndWait(timeout: JsValue): (r: Request)
    ensures r.name == "click" && |r.args| == 2 && r.args[1] == Value(timeout)
  {
    Request("click", [SelectorArg, Value(timeout)])
  }

  /** `pinchIn`/`pinchOut`: a falsy percent becomes 100 and falsy steps become 50; both sent are truthy. */
  function Pinch(name: string, percent: JsValue, steps: JsValue): (r: Request)
    ensures r.name == name && |r.args| == 3 && r.args[0] == SelectorArg
    ensures r.args[1] == Value(if Truthy(percent) then percent else Num(100))
    ensures r.args[2] == Value(if Truthy(steps) then steps else Num(50))
    ensures Truthy(r.args[1].v) && Truthy(r.args[2].v)
  {
    Request(name, [SelectorArg, Value(Or(percent, Num(100))), Value(Or(steps, Num(50)))])
  }

  function PinchIn(percent: JsValue, steps: JsValue): (r: Request)
    ensures r == Pinch("pinchIn", percent, steps)
  {
    Pinch("pinchIn", percent, steps)
  }

  function PinchOut(percent: JsValue, steps: JsValue): (r: Request)
    ensures r == Pinch("pinchOut", percent, steps)
  {
    Pinch("pinchOut", percent, steps)
  }

  /** The four directions a swipe takes. */
  predicate IsDirection(direction: JsValue) {
    direction.Str? && direction.s in ["up", "down", "left", "right"]
  }

  /**
   * `swipe(direction, steps, percent)` as written: it throws exactly when
   * the direction IS one of the four, and leaves percent out when it equals 1.
   */
  function Swipe(direction: JsValue, steps: JsValue, percent: JsValue): (r: Result<Request>)
    ensures r.Err? <==> IsDirection(direction)
    ensures r.Err? ==> r.failure == Thrown(SwipeMessage)
    ensures r.Ok? ==> r.value == SwipeParams(direction, steps, percent)
  {
    if IsDirection(direction) then Err(Thrown(SwipeMessage)) else Ok(SwipeParams(direction, steps, percent))
  }

  /** `swipe` refusing what is not a direction, as its message says. */
  function SwipeChecked(direction: JsValue, steps: JsValue, percent: JsValue): (r: Result<Request>)
    ensures r.Err? <==> !IsDirection(direction)
    ensures r.Ok? ==> r.value == SwipeParams(direction, steps, percent)
  {
    if IsDirection(direction) then Ok(SwipeParams(direction, steps, percent)) else Err(Thrown(SwipeMessage))
  }

  /** The request a swipe sends: percent is dropped when it loosely equals 1. */
  function SwipeParams(direction: JsValue, steps: JsValue, percent: JsValue): (r: Request)
    ensures r.name == "swipe" && |r.args| >= 3 && r.args[..2] == [SelectorArg, Value(direction)]
    ensures |r.args| == 3 <==> LooseEqualsNumber(percent, 1)
    ensures |r.args| == 3 ==> r.args[2] == Value(steps)
    ensures |r.args| != 3 ==> r.args[2..] == [Value(percent), Value(steps)]
  {
    if LooseEqualsNumber(percent, 1) then Request("swipe", [SelectorArg, Value(direction), Value(steps)])
    else Request("swipe", [SelectorArg, Value(direction), Value(percent), Value(steps)])
  }

  /** As written, no swipe in any of the four directions ever reaches the device. */
  lemma SwipeNeverSendsADirection(direction: JsValue, steps: JsValue, percent: JsValue)
    ensures Swipe(direction, steps, percent).Ok? ==> !IsDirection(Swipe(direction, steps, percent).value.args[1].v)
    ensures SwipeChecked(direction, steps, percent).Ok? ==> IsDirection(SwipeChecked(direction, steps, percent).value.args[1].v)
  {
  }

  /** `waitUntilGone`/`waitForExists`: a falsy timeout becomes 3000. */
  function Wait(name: string, timeout: JsValue): (r: Request)
    ensures r.name == name && r.args == [SelectorArg, Value(if Truthy(timeout) then timeout else Num(3000))]
  {
    Request(name, [SelectorArg, Value(Or(timeout, Num(3000)))])
  }

  /**
   * `(direction || 'vertical') == 'vertical'`, what every public fling and
   * scroll sends as its direction: only a falsy direction or the string
   * "vertical" counts as vertical; "horizontal" and all else are false.
   */
  function IsVertical(direction: JsValue): (r: bool)
    ensures r <==> !Truthy(direction) || direction == Str("vertical")
  {
    VerticalIsNoNumber();
    LooseEquals(Some("vertical"), Or(direction, Str("vertical")))
  }

  lemma VerticalIsNoNumber()
    ensures forall n :: ToNumber("vertical") != Some(n)
  {
    assert !IsDigit("vertical"[0]);
  }

  /** The `'horizental'` rewrite in `__fling`/`__scroll`: applies only to the string "horizontal". */
  function Horizental(direction: JsValue): (r: JsValue)
    ensures r == (if direction == Str("horizontal") then Str("horizental") else direction)
  {
    assert !IsDigit("horizontal"[0]) && "horizontal"[0] != '/';
    if LooseEquals(Some("horizontal"), direction) then Str("horizental") else direction
  }

  /** A boolean is never rewritten: behind the public wrappers the rewrite never applies. */
  lemma BooleanNotRewritten(b: bool)
    ensures Horizental(Bool(b)) == Bool(b)
  {
    assert !IsDigit("horizontal"[0]);
  }

  /** `__fling(direction, action, maxSwipes)`: the parameters are pushed one by one. */
  method Fling(direction: JsValue, action: string, maxSwipes: JsValue) returns (r: Request)
    ensures r.name == "fling" + action && |r.args| >= 2
    ensures r.args[..2] == [SelectorArg, Value(Horizental(direction))]
    ensures StartsWith(action, "To") ==> r.args[2..] == [Value(if Truthy(maxSwipes) then maxSwipes else Num(1000))]
    ensures !StartsWith(action, "To") ==> |r.args| == 2
  {
    var dir := Horizental(direction);
    var swipes := Or(maxSwipes, Num(1000));
    var params := [SelectorArg, Value(dir)];
    if StartsWith(action, "To") {
      params := params + [Value(swipes)];
    }
    r := Request("fling" + action, params);
  }

  /** `__scroll(direction, action, steps, maxSwipes)`: maxSwipes only for To-actions, then steps; both default to 1000. */
  method Scroll(direction: JsValue, action: string, steps: JsValue, maxSwipes: JsValue) returns (r: Request)
    ensures r.name == "scroll" + action && |r.args| >= 3
    ensures r.args[..2] == [SelectorArg, Value(Horizental(direction))]
    ensures r.args[|r.args| - 1] == Value(if Truthy(steps) then steps else Num(1000))
    ensures StartsWith(action, "To") ==> |r.args| == 4 && r.args[2] == Value(if Truthy(maxSwipes) then maxSwipes else Num(1000))
    ensures !StartsWith(action, "To") ==> |r.args| == 3
  {
    var dir := Horizental(direction);
    var st := Or(steps, Num(1000));
    var swipes := Or(maxSwipes, Num(1000));
    var params := [SelectorArg, Value(dir)];
    if StartsWith(action, "To") {
      params := params + [Value(swipes)];
    }
    params := params + [Value(st)];
    r := Request("scroll" + action, params);
  }

  // ------------------------------------------------------------- wrappers

  method FlingForward(direction: JsValue) returns (r: Request)
    ensures r == Request("flingForward", [SelectorArg, Value(Bool(IsVertical(direction)))])
  {
    BooleanNotRewritten(IsVertical(direction));
    ActionNames();
    r := Fling(Bool(IsVertical(direction)), "Forward", Undefined);
    assert r.args == r.args[..2];
  }

  method FlingBackward(direction: JsValue) returns (r: Request)
    ensures r == Request("flingBackward", [SelectorArg, Value(Bool(IsVertical(direction)))])
  {
    BooleanNotRewritten(IsVertical(direction));
    ActionNames();
    r := Fling(Bool(IsVertical(direction)), "Backward", Undefined);
    assert r.args == r.args[..2];
  }

  method FlingToBeginning(direction: JsValue, maxSwipes: JsValue) returns (r: Request)
    ensures r == Request("flingToBeginning", [SelectorArg, Value(Bool(IsVertical(direction))),
                                              Value(if Truthy(maxSwipes) then maxSwipes else Num(1000))])
  {
    BooleanNotRewritten(IsVertical(direction));
    ActionNames();
    r := Fling(Bool(IsVertical(direction)), "ToBeginning", Or(maxSwipes, Num(1000)));
    assert r.args == r.args[..2] + r.args[2..];
  }

  method FlingToEnd(direction: JsValue, maxSwipes: JsValue) returns (r: Request)
    ensures r == Request("flingToEnd", [SelectorArg, Value(Bool(IsVertical(direction))),
                                        Value(if Truthy(maxSwipes) then maxSwipes else Num(1000))])
  {
    BooleanNotRewritten(IsVertical(direction));
    ActionNames();
    r := Fling(Bool(IsVertical(direction)), "ToEnd", Or(maxSwipes, Num(1000)));
    assert r.args == r.args[..2] + r.args[2..];
  }

  method ScrollForward(direction: JsValue, steps: JsValue) returns (r: Request)
    ensures r == Request("scrollForward", [SelectorArg, Value(Bool(IsVertical(direction))),
                                           Value(if Truthy(steps) then steps else Num(1000))])
  {
    BooleanNotRewritten(IsVertical(direction));
    ActionNames();
    r := Scroll(Bool(IsVertical(direction)), "Forward", steps, Undefined);
    assert r.args == r.args[..2] + [r.args[2]];
  }

  method ScrollBackward(direction: JsValue, steps: JsValue) returns (r: Request)
    ensures r == Request("scrollBackward", [SelectorArg, Value(Bool(IsVertical(direction))),
                                            Value(if Truthy(steps) then steps else Num(1000))])
  {
    BooleanNotRewritten(IsVertical(direction));
    ActionNames();
    r := Scroll(Bool(IsVertical(direction)), "Backward", steps, Undefined);
    assert r.args == r.args[..2] + [r.args[2]];
  }

  /**
   * `scrollToBeginning` as written: it calls `__fling`, so the device is
   * asked to fling, with the steps (default 100) in the maxSwipes place and
   * maxSwipes dropped.
   */
  method ScrollToBeginning(direction: JsValue, steps: JsValue, maxSwipes: JsValue) returns (r: Request)
    ensures r == Request("flingToBeginning", [SelectorArg, Value(Bool(IsVertical(direction))),
                                              Value(if Truthy(steps) then steps else Num(100))])
  {
    r := ScrollTo("Beginning", direction, steps, maxSwipes);
  }

  method ScrollToEnd(direction: JsValue, steps: JsValue, maxSwipes: JsValue) returns (r: Request)
    ensures r == Request("flingToEnd", [SelectorArg, Value(Bool(IsVertical(direction))),
                                        Value(if Truthy(steps) then steps else Num(100))])
  {
    r := ScrollTo("End", direction, steps, maxSwipes);
  }

  /** The shared body of `scrollToBeginning`/`scrollToEnd` as written. */
  method ScrollTo(target: string, direction: JsValue, steps: JsValue, maxSwipes: JsValue) returns (r: Request)
    ensures r == Request("flingTo" + target, [SelectorArg, Value(Bool(IsVertical(direction))),
                                              Value(if Truthy(steps) then steps else Num(100))])
  {
    BooleanNotRewritten(IsVertical(direction));
    IsTo(target);
    var swipes := Or(maxSwipes, Num(1000));
    var st := Or(steps, Num(100));
    r := Fling(Bool(IsVertical(direction)), "To" + target, st);
    assert "fling" + ("To" + target) == "flingTo" + target;
  }

  /** `scrollToBeginning`/`scrollToEnd` calling `__scroll`: a scroll request carrying both maxSwipes and steps. */
  method ScrollToChecked(target: string, direction: JsValue, steps: JsValue, maxSwipes: JsValue) returns (r: Request)
    ensures r == Request("scrollTo" + target, [SelectorArg, Value(Bool(IsVertical(direction))),
                                               Value(if Truthy(maxSwipes) then maxSwipes else Num(1000)),
                                               Value(if Truthy(steps) then steps else Num(100))])
  {
    BooleanNotRewritten(IsVertical(direction));
    IsTo(target);
    var swipes := Or(maxSwipes, Num(1000));
    var st := Or(steps, Num(100));
    r := Scroll(Bool(IsVertical(direction)), "To" + target, st, swipes);
    assert "scroll" + ("To" + target) == "scrollTo" + target;
  }

  lemma IsTo(target: string)
    ensures StartsWith("To" + target, "To")
  {
    assert ("To" + target)[..2] == "To";
  }

  /** The request names the wrappers send, and which of their actions are To-actions. */
  lemma ActionNames()
    ensures "fling" + "Forward" == "flingForward" && "fling" + "Backward" == "flingBackward"
    ensures "fling" + "ToBeginning" == "flingToBeginning" && "fling" + "ToEnd" == "flingToEnd"
    ensures "scroll" + "Forward" == "scrollForward" && "scroll" + "Backward" == "scrollBackward"
    ensures StartsWith("ToBeginning", "To") && StartsWith("ToEnd", "To")
    ensures !StartsWith("Forward", "To") && !StartsWith("Backward", "To")
  {
    assert "Forward"[..2] != "To" && "Backward"[..2] != "To" by {
      assert "Forward"[..2][0] == 'F' && "Backward"[..2][0] == 'B';
    }
  }
}
