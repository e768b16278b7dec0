/**
 * A node of the view hierarchy that Android's ViewServer dumps, and the
 * parser for one dump line:
 *
 *     <indent>className@address group:key=length,value key=length,value ...
 *
 * Each value is read by its announced length, so it may contain spaces,
 * commas and equals signs.  `ScanFrom` and `ParseLine` state what a line
 * parses to; the class `ViewNode` and its method `FromDump` do the parsing
 * step by step, in place, as the JavaScript does.
 */
module ViewNodes {
  import opened Js

  // -------------------------------------------------------- property store

  /** A property as the loop in `fromDump` hands it to `addProperty`. */
  datatype Property = Property(group: string, key: string, value: string)

  /** The two maps `addProperty` writes: all properties, and properties by group. */
  datatype Store = Store(properties: map<string, string>, groups: map<string, map<string, string>>)

  function Lookup(m: map<string, string>, k: string): Option<string> {
    if k in m then Some(m[k]) else None
  }

  /**
   * The key `addProperty` stores under: a trailing `()` is dropped, and then
   * a `get` prefix is dropped with the next character lower-cased.
   */
  function NormalizeKey(key: string): (r: string)
    ensures !EndsWith(key, "()") ==> r == key
    ensures EndsWith(key, "()") && !StartsWith(key[..|key| - 2], "get") ==> r == key[..|key| - 2]
    ensures key == "get()" ==> r == ""
    ensures |r| <= |key|
  {
    if EndsWith(key, "()") then
      var k := key[..|key| - 2];
      if StartsWith(k, "get") then
        (if |k| > 3 then [ToLowerAscii(k[3])] else []) + (if |k| >= 4 then k[4..] else [])
      else k
    else key
  }

  /** A getter's dumped name is stored under the property it reads. */
  lemma GetterKey(c: char, rest: string)
    ensures NormalizeKey("get" + [c] + rest + "()") == [ToLowerAscii(c)] + rest
  {
    var key := "get" + [c] + rest + "()";
    assert key[|key| - 2..] == "()";
    var k := key[..|key| - 2];
    assert k == "get" + [c] + rest;
    assert k[..3] == "get";
    assert k[4..] == rest;
  }

  /** A group name with its first character upper-cased; "text" files under "Text". */
  function Capitalise(group: string): (r: string)
    requires group != ""
    ensures |r| == |group| && r[1..] == group[1..]
  {
    [ToUpperAscii(group[0])] + group[1..]
  }

  /** One `addProperty(key, value, group)` call; an empty group is not grouped. */
  function AddTo(st: Store, key: string, value: string, group: string): (r: Store)
    ensures NormalizeKey(key) in r.properties && r.properties[NormalizeKey(key)] == value
    ensures group == "" ==> r.groups == st.groups
    ensures group != "" ==> Capitalise(group) in r.groups && NormalizeKey(key) in r.groups[Capitalise(group)]
                            && r.groups[Capitalise(group)][NormalizeKey(key)] == value
  {
    var k := NormalizeKey(key);
    var properties := st.properties[k := value];
    if group == "" then
      Store(properties, st.groups)
    else
      var g := Capitalise(group);
      var before := if g in st.groups then st.groups[g] else map[];
      Store(properties, st.groups[g := before[k := value]])
  }

  /** The store after adding a line's properties in order to an empty node. */
  function StoreOf(ps: seq<Property>): Store {
    if ps == [] then Store(map[], map[])
    else
      var p := ps[|ps| - 1];
      AddTo(StoreOf(ps[..|ps| - 1]), p.key, p.value, p.group)
  }

  /** Group names are non-empty, and every key of a group is a key of `properties`. */
  predicate GroupsWithin(st: Store) {
    forall g :: g in st.groups ==> g != "" && st.groups[g].Keys <= st.properties.Keys
  }

  /** Every grouped entry is also a property: a group is a view on `properties`, never more. */
  lemma {:induction false} GroupsWithinProperties(ps: seq<Property>)
    ensures GroupsWithin(StoreOf(ps))
  {
    if ps != [] {
      var prev := StoreOf(ps[..|ps| - 1]);
      GroupsWithinProperties(ps[..|ps| - 1]);
      var p := ps[|ps| - 1];
      var st := StoreOf(ps);
      assert st == AddTo(prev, p.key, p.value, p.group);
      forall g | g in st.groups
        ensures g != "" && st.groups[g].Keys <= st.properties.Keys
      {
        assert prev.properties.Keys <= st.properties.Keys;
        if p.group != "" && g == Capitalise(p.group) {
          var before := if g in prev.groups then prev.groups[g] else map[];
          assert before.Keys <= prev.properties.Keys by {
            if g in prev.groups {
              assert prev.groups[g].Keys <= prev.properties.Keys;
            }
          }
          assert st.groups[g] == before[NormalizeKey(p.key) := p.value];
        } else {
          assert g in prev.groups && st.groups[g] == prev.groups[g];
          assert g != "" && prev.groups[g].Keys <= prev.properties.Keys;
        }
      }
    }
  }

  /** A key is stored exactly when some property of the line normalises to it. */
  lemma {:induction false} KeyStored(ps: seq<Property>, k: string)
    ensures k in StoreOf(ps).properties <==> exists i :: 0 <= i < |ps| && HasKey(ps[i], k)
  {
    if ps == [] {
      assert StoreOf(ps).properties == map[];
    } else {
      KeyStored(ps[..|ps| - 1], k);
      KeyAfterLast(ps, k);
      SomeKeySplit(ps, ps[..|ps| - 1], k);
    }
  }

  /** Storing the last property adds its key to those of the earlier ones. */
  lemma KeyAfterLast(ps: seq<Property>, k: string)
    requires ps != []
    ensures (k in StoreOf(ps).properties)
            == (HasKey(ps[|ps| - 1], k) || k in StoreOf(ps[..|ps| - 1]).properties)
  {
    PropertyAfterAdd(StoreOf(ps[..|ps| - 1]), ps[|ps| - 1], k);
  }

  /** Some property has key `k` exactly when the last one or an earlier one does. */
  lemma SomeKeySplit(ps: seq<Property>, init: seq<Property>, k: string)
    requires ps != [] && init == ps[..|ps| - 1]
    ensures (exists i :: 0 <= i < |ps| && HasKey(ps[i], k))
            <==> HasKey(ps[|ps| - 1], k) || exists i :: 0 <= i < |init| && HasKey(init[i], k)
  {
    if i :| 0 <= i < |ps| && HasKey(ps[i], k) {
      if i < |ps| - 1 {
        assert init[i] == ps[i];
      }
    }
    if i :| 0 <= i < |ps| - 1 && HasKey(init[i], k) {
      assert ps[i] == init[i];
    }
  }

  /** A stored key holds the value of the last property stored under it. */
  lemma {:induction false} LastWriteWins(ps: seq<Property>, k: string, i: nat)
    requires i < |ps| && HasKey(ps[i], k)
    requires forall j :: i < j < |ps| ==> !HasKey(ps[j], k)
    ensures k in StoreOf(ps).properties && StoreOf(ps).properties[k] == ps[i].value
  {
    var n := |ps| - 1;
    var init := ps[..n];
    PropertyAfterAdd(StoreOf(init), ps[n], k);
    if i < n {
      assert forall j :: i < j < n ==> init[j] == ps[j];
      LastWriteWins(init, k, i);
    }
  }

  /** Adding `p` touches the entry for `k` only when `p` is stored under `k`. */
  lemma PropertyAfterAdd(st: Store, p: Property, k: string)
    ensures var after := AddTo(st, p.key, p.value, p.group).properties;
            (k in after) == (HasKey(p, k) || k in st.properties)
            && (k in after ==> after[k] == if HasKey(p, k) then p.value else st.properties[k])
  {
  }

  /** The property is stored under `k`. */
  predicate HasKey(p: Property, k: string) {
    NormalizeKey(p.key) == k
  }

  /**
   * A key is stored in group `g` exactly when some property with a non-empty
   * group that capitalises to `g` normalises to it.
   */
  lemma {:induction false} GroupStored(ps: seq<Property>, g: string, k: string)
    ensures (g in StoreOf(ps).groups && k in StoreOf(ps).groups[g])
            <==> exists i :: 0 <= i < |ps| && InGroup(ps[i], g, k)
  {
    if ps == [] {
      assert StoreOf(ps).groups == map[];
    } else {
      GroupStored(ps[..|ps| - 1], g, k);
      GroupAfterLast(ps, g, k);
      SomeGroupSplit(ps, ps[..|ps| - 1], g, k);
    }
  }

  /** Storing the last property adds its entry to those of the earlier ones. */
  lemma GroupAfterLast(ps: seq<Property>, g: string, k: string)
    requires ps != []
    ensures var after := StoreOf(ps).groups;
            var before := StoreOf(ps[..|ps| - 1]).groups;
            (g in after && k in after[g])
            == (InGroup(ps[|ps| - 1], g, k) || (g in before && k in before[g]))
  {
    GroupAfterAdd(StoreOf(ps[..|ps| - 1]), ps[|ps| - 1], g, k);
  }

  /** Some property is grouped under (g, k) exactly when the last one or an earlier one is. */
  lemma SomeGroupSplit(ps: seq<Property>, init: seq<Property>, g: string, k: string)
    requires ps != [] && init == ps[..|ps| - 1]
    ensures (exists i :: 0 <= i < |ps| && InGroup(ps[i], g, k))
            <==> InGroup(ps[|ps| - 1], g, k) || exists i :: 0 <= i < |init| && InGroup(init[i], g, k)
  {
    if i :| 0 <= i < |ps| && InGroup(ps[i], g, k) {
      if i < |ps| - 1 {
        assert init[i] == ps[i];
      }
    }
    if i :| 0 <= i < |init| && InGroup(init[i], g, k) {
      assert ps[i] == init[i];
    }
  }

  /** An entry of group `g` holds the value of the last property grouped under it. */
  lemma {:induction false} GroupedByCapitalisedName(ps: seq<Property>, g: string, k: string, i: nat)
    requires i < |ps| && InGroup(ps[i], g, k)
    requires forall j :: i < j < |ps| ==> !InGroup(ps[j], g, k)
    ensures g in StoreOf(ps).groups && k in StoreOf(ps).groups[g] && StoreOf(ps).groups[g][k] == ps[i].value
  {
    var n := |ps| - 1;
    var init := ps[..n];
    GroupAfterAdd(StoreOf(init), ps[n], g, k);
    if i < n {
      assert forall j :: i < j < n ==> init[j] == ps[j];
      GroupedByCapitalisedName(init, g, k, i);
    }
  }

  /** Adding `p` touches the entry (g, k) only when `p` is grouped under it. */
  lemma GroupAfterAdd(st: Store, p: Property, g: string, k: string)
    ensures var after := AddTo(st, p.key, p.value, p.group).groups;
            (g in after && k in after[g]) == (InGroup(p, g, k) || (g in st.groups && k in st.groups[g]))
            && (g in after && k in after[g] ==>
                  after[g][k] == if InGroup(p, g, k) then p.value else st.groups[g][k])
  {
    if !InGroup(p, g, k) {
      GroupUntouched(st, p, g, k);
    }
  }

  /** Adding a property outside (g, k) leaves the entry (g, k) as it was. */
  lemma GroupUntouched(st: Store, p: Property, g: string, k: string)
    requires !InGroup(p, g, k)
    ensures var after := AddTo(st, p.key, p.value, p.group).groups;
            (g in after && k in after[g]) == (g in st.groups && k in st.groups[g])
            && (g in after && k in after[g] ==> after[g][k] == st.groups[g][k])
  {
  }

  predicate InGroup(p: Property, g: string, k: string) {
    p.group != "" && Capitalise(p.group) == g && NormalizeKey(p.key) == k
  }

  // ------------------------------------------------------ fillAdditional

  /** The summary `fillAdditional` stores in `props`. */
  datatype Derived = Derived(
    id: Option<string>,
    x: int,
    y: int,
    description: Option<string>,
    width: int,
    height: int,
    visibility: string,
    isClickable: bool,
    isEnabled: bool,
    willNotDraw: bool,
    textColor: string)

  /** `Boolean(x) || false` on a property that may be missing: any non-empty text is true. */
  function Flag(x: Option<string>): (r: bool)
    ensures r <==> x.Some? && x.value != ""
  {
    match x
    case None => false
    case Some(s) => s != ""
  }

  /** The dump writes flags as "true" or "false", and `Flag` reads both as true. */
  lemma FlagReadsFalseAsTrue()
    ensures Flag(Some("false")) && Flag(Some("true"))
  {
  }

  /** A flag read as the dump means it: only the text "true" is true. */
  function FlagFixed(x: Option<string>): (r: bool)
    ensures r ==> x.Some? && x.value != ""
  {
    x == Some("true")
  }

  /** The corrected reading gives back the boolean the dump wrote. */
  lemma FlagFixedRoundTrip(b: bool)
    ensures FlagFixed(Some(if b then "true" else "false")) == b
  {
  }

  /** `mCurTextColor` of the "Text" group, when present and non-empty. */
  function TextColorText(st: Store): Option<string> {
    if "Text" in st.groups && "mCurTextColor" in st.groups["Text"] && st.groups["Text"]["mCurTextColor"] != "" then
      Some(st.groups["Text"]["mCurTextColor"])
    else None
  }

  /** `'#' + (Number(c) >>> 0).toString(16)`, or `#00000000` without a colour. */
  function TextColor(st: Store): (r: string)
    ensures TextColorText(st).None? ==> r == "#00000000"
    ensures |r| >= 2 && r[0] == '#'
    ensures forall i :: 1 <= i < |r| ==> IsHexDigit(r[i])
  {
    match TextColorText(st)
    case None => "#00000000"
    case Some(c) =>
      var n := ToUint32(match ToNumber(c) case Some(v) => v case None => 0);
      HexRoundTrip(n);
      "#" + ToHex(n)
  }

  /**
   * Android dumps a colour as a signed 32-bit ARGB integer; the hex digits
   * after '#' read back as the same colour taken unsigned.
   */
  lemma TextColorIsUnsignedArgb(st: Store, c: int)
    requires TextColorText(st) == Some(IntToString(c))
    requires -0x8000_0000 <= c < 0x8000_0000
    ensures ParseHex(TextColor(st)[1..]) == (if c < 0 then c + 0x1_0000_0000 else c)
  {
    TextColorOfNumber(st, c);
    Uint32OfInt32(c);
    var h := ToHex(ToUint32(c));
    HexRoundTrip(ToUint32(c));
    assert ("#" + h)[1..] == h;
  }

  /** A colour written as an integer is printed as the hex digits of that integer taken unsigned. */
  lemma TextColorOfNumber(st: Store, c: int)
    requires TextColorText(st) == Some(IntToString(c))
    ensures TextColor(st) == "#" + ToHex(ToUint32(c))
  {
    ToNumberIntToString(c);
  }

  function FillAdditional(st: Store): (r: Derived)
    ensures r.id == Lookup(st.properties, "mID")
    ensures r.description == Lookup(st.properties, "contentDescription")
    ensures r.x == NumberOrZero(Lookup(st.properties, "locationOnScreen_x"))
    ensures r.y == NumberOrZero(Lookup(st.properties, "locationOnScreen_y"))
    ensures r.width == NumberOrZero(Lookup(st.properties, "width"))
    ensures r.height == NumberOrZero(Lookup(st.properties, "height"))
    ensures r.visibility != ""
    ensures r.visibility == (match Lookup(st.properties, "visibility")
                             case Some(v) => if v != "" then v else "GONE"
                             case None => "GONE")
    ensures r.isClickable <==> Flag(Lookup(st.properties, "isClickable"))
    ensures r.isEnabled <==> Flag(Lookup(st.properties, "isEnabled"))
    ensures r.willNotDraw <==> Flag(Lookup(st.properties, "willNotDraw"))
    ensures r.textColor == TextColor(st)
    ensures |r.textColor| >= 2 && r.textColor[0] == '#'
  {
    var prop := st.properties;
    var visibility := Lookup(prop, "visibility");
    Derived(
      Lookup(prop, "mID"),
      NumberOrZero(Lookup(prop, "locationOnScreen_x")),
      NumberOrZero(Lookup(prop, "locationOnScreen_y")),
      Lookup(prop, "contentDescription"),
      NumberOrZero(Lookup(prop, "width")),
      NumberOrZero(Lookup(prop, "height")),
      if visibility.Some? && visibility.value != "" then visibility.value else "GONE",
      Flag(Lookup(prop, "isClickable")),
      Flag(Lookup(prop, "isEnabled")),
      Flag(Lookup(prop, "willNotDraw")),
      TextColor(st))
  }

  // ---------------------------------------------------- the line, as a spec

  /** The first index at or after `from` holding `c`; None where the scanning loop runs past the end of the line and never returns normally. */
  function Find(p: string, from: nat, c: char): (r: Option<nat>)
    ensures r.Some? ==> from <= r.value < |p| && p[r.value] == c
                        && forall k :: from <= k < r.value ==> p[k] != c
    ensures r.None? ==> forall k :: from <= k < |p| ==> p[k] != c
    decreases |p| - from
  {
    if from >= |p| then None
    else if p[from] == c then Some(from)
    else Find(p, from + 1, c)
  }

  lemma FindFirst(p: string, from: nat, c: char, k: nat)
    requires from <= k < |p| && p[k] == c
    requires forall j :: from <= j < k ==> p[j] != c
    ensures Find(p, from, c) == Some(k)
  {
  }

  /** `propPart[i]` as text: the character, or "undefined" past the end. */
  function CharAt(p: string, i: nat): string {
    if i < |p| then [p[i]] else "undefined"
  }

  /** The text the value loop builds from `n` reads starting at `from`. */
  function ReadValue(p: string, from: nat, n: nat): (r: string)
    ensures |r| >= n
  {
    if n == 0 then "" else ReadValue(p, from, n - 1) + CharAt(p, from + n - 1)
  }

  /** Within the line, the value is the next `n` characters. */
  lemma {:induction false} ReadValueWithin(p: string, from: nat, n: nat)
    requires from + n <= |p|
    ensures ReadValue(p, from, n) == p[from..from + n]
  {
    if n > 0 {
      ReadValueWithin(p, from, n - 1);
      assert p[from..from + n] == p[from..from + n - 1] + [p[from + n - 1]];
    }
  }

  /** A length that runs past the end of the line appends the text "undefined" for each missing character. */
  lemma ReadValuePastEnd(p: string, from: nat, n: nat)
    requires n > 0 && from + n > |p|
    ensures EndsWith(ReadValue(p, from, n), "undefined") && |ReadValue(p, from, n)| >= n + 8
  {
    var r := ReadValue(p, from, n);
    assert r == ReadValue(p, from, n - 1) + "undefined";
  }

  /** The number of characters the value loop reads: `i < Number(text)` fails at once for NaN. */
  function ValueCount(text: string): nat {
    match ToNumber(text)
    case Some(n) => if n > 0 then n else 0
    case None => 0
  }

  /** A key before its first colon names its group; without a colon the group is "miscellaneous". */
  function SplitGroup(rawKey: string, value: string): Property {
    match IndexOf(rawKey, ':')
    case Some(c) => Property(rawKey[..c], rawKey[c + 1..], value)
    case None => Property("miscellaneous", rawKey, value)
  }

  /**
   * Splitting at the first colon loses nothing: group, colon and key give
   * back the raw key, and the group holds no colon.  A raw key without '='
   * gives an unsplit property.
   */
  lemma SplitGroupParts(rawKey: string, value: string)
    ensures var r := SplitGroup(rawKey, value);
            r.value == value
            && (':' in rawKey ==> r.group + [':'] + r.key == rawKey && ':' !in r.group)
            && (':' !in rawKey ==> r.group == "miscellaneous" && r.key == rawKey)
            && ('=' !in rawKey ==> Unsplit(r))
  {
    match IndexOf(rawKey, ':')
    case Some(c) =>
      assert rawKey[..c] + [':'] + rawKey[c + 1..] == rawKey;
      if '=' !in rawKey {
        NotInParts(rawKey, c, '=');
      }
    case None =>
      assert "miscellaneous" == ['m', 'i', 's', 'c', 'e', 'l', 'l', 'a', 'n', 'e', 'o', 'u', 's'];
  }

  /** A character missing from `s` is missing from both sides of position `c`. */
  lemma NotInParts(s: string, c: nat, x: char)
    requires c < |s| && x !in s
    ensures x !in s[..c] && x !in s[c + 1..]
  {
    var head, tail := s[..c], s[c + 1..];
    forall j | 0 <= j < |head|
      ensures head[j] != x
    {
      assert head[j] == s[j];
    }
    forall j | 0 <= j < |tail|
      ensures tail[j] != x
    {
      assert tail[j] == s[c + 1 + j];
    }
  }

  /** A property read from a line: its key holds no '=', its group neither '=' nor ':'. */
  predicate Unsplit(p: Property) {
    '=' !in p.key && '=' !in p.group && ':' !in p.group
  }

  /** `Some(done + ps)` when the rest parses to `ps`. */
  function Prepend(done: seq<Property>, rest: Option<seq<Property>>): Option<seq<Property>> {
    match rest
    case None => None
    case Some(ps) => Some(done + ps)
  }

  /**
   * The properties the loop of `fromDump` reads from `p` starting at `i`, or
   * None when a missing '=' or ',' makes it run past the end of the line, so
   * that it never returns normally.
   */
  function ScanFrom(p: string, i: nat): (r: Option<seq<Property>>)
    ensures r.Some? ==> forall k :: 0 <= k < |r.value| ==> Unsplit(r.value[k])
    decreases |p| - i
  {
    if i >= |p| then Some([])
    else
      TurnUnsplit(p, i);
      match Turn(p, i)
      case None => None
      case Some((prop, next)) => Prepend([prop], ScanFrom(p, next))
  }

  /**
   * One turn of the loop from index `i`: the property read and the index
   * after its separator, or None when the '=' or the ',' never comes.
   */
  function Turn(p: string, i: nat): (r: Option<(Property, nat)>)
    ensures r.Some? ==> r.value.1 > i
  {
    match Find(p, i, '=')
    case None => None
    case Some(eq) =>
      match Find(p, eq + 1, ',')
      case None => None
      case Some(comma) => Some(TurnBetween(p, i, eq, comma))
  }

  /** The rest of a turn once '=' is at `eq` and ',' at `comma`: the value is read after the comma. */
  function TurnBetween(p: string, i: nat, eq: nat, comma: nat): (Property, nat)
    requires i <= eq < comma <= |p|
  {
    var count := ValueCount(p[eq + 1..comma]);
    (SplitGroup(p[i..eq], ReadValue(p, comma + 1, count)), comma + 1 + count + 1)
  }

  /** The property a turn reads is unsplit: its raw key stops before the first '='. */
  lemma TurnUnsplit(p: string, i: nat)
    ensures Turn(p, i).Some? ==> Unsplit(Turn(p, i).value.0)
  {
    match Find(p, i, '=')
    case None =>
    case Some(eq) =>
      assert '=' !in p[i..eq];
      match Find(p, eq + 1, ',')
      case None =>
      case Some(comma) =>
        var count := ValueCount(p[eq + 1..comma]);
        SplitGroupParts(p[i..eq], ReadValue(p, comma + 1, count));
  }

  // ------------------------------------------------------ encoding, inverse

  /** A property as the device writes it: raw key (with its group), and value. */
  datatype Entry = Entry(rawKey: string, value: string)

  function Encode(e: Entry): string {
    e.rawKey + "=" + IntToString(|e.value|) + "," + e.value + " "
  }

  function EncodeAll(es: seq<Entry>): string {
    if es == [] then "" else Encode(es[0]) + EncodeAll(es[1..])
  }

  function ParsedAll(es: seq<Entry>): seq<Property> {
    if es == [] then [] else [SplitGroup(es[0].rawKey, es[0].value)] + ParsedAll(es[1..])
  }

  predicate WellFormedKeys(es: seq<Entry>) {
    forall k :: 0 <= k < |es| ==> '=' !in es[k].rawKey
  }

  /**
   * The property loop inverts the device's encoding, whatever the values
   * contain, as long as no raw key contains '='.
   */
  lemma {:induction false} ScanEncoded(x: string, es: seq<Entry>)
    requires WellFormedKeys(es)
    ensures ScanFrom(x + EncodeAll(es), |x|) == Some(ParsedAll(es))
    decreases |es|
  {
    if es == [] {
      assert x + EncodeAll(es) == x;
    } else {
      var rest := EncodeAll(es[1..]);
      assert x + EncodeAll(es) == x + Encode(es[0]) + rest;
      ScanOne(x, es[0], rest);
      WellFormedTail(es);
      ScanEncoded(x + Encode(es[0]), es[1..]);
      assert x + Encode(es[0]) + rest == (x + Encode(es[0])) + EncodeAll(es[1..]);
    }
  }

  /** One encoded property, followed by anything, scans as that property and then the rest. */
  lemma ScanOne(x: string, e: Entry, rest: string)
    requires '=' !in e.rawKey
    ensures ScanFrom(x + Encode(e) + rest, |x|)
            == Prepend([SplitGroup(e.rawKey, e.value)], ScanFrom(x + Encode(e) + rest, |x + Encode(e)|))
  {
    var p := x + Encode(e) + rest;
    var eq, comma := Layout(x, e, rest);
    StopsFound(p, |x|, eq, comma, e);
    TurnAt(p, |x|, eq, comma, e.rawKey, p[eq + 1..comma], e.value, |x + Encode(e)|);
  }

  /** Where the '=', the ',' and the value of an encoded property sit. */
  lemma Layout(x: string, e: Entry, rest: string) returns (eq: nat, comma: nat)
    ensures eq == |x| + |e.rawKey| && comma == eq + 1 + |NatToString(|e.value|)|
    ensures comma + 1 + |e.value| + 1 == |x + Encode(e)|
    ensures var p := x + Encode(e) + rest;
            comma + 1 + |e.value| <= |p| && p[|x|..eq] == e.rawKey && p[eq] == '='
            && p[eq + 1..comma] == NatToString(|e.value|) && p[comma] == ','
            && p[comma + 1..comma + 1 + |e.value|] == e.value
  {
    eq := |x| + |e.rawKey|;
    comma := eq + 1 + |NatToString(|e.value|)|;
    EncodedParts(x, e, rest);
  }

  /** `x + Encode(e) + rest` cut at the '=', the ',' and the separator. */
  lemma EncodedParts(x: string, e: Entry, rest: string)
    ensures var digits := NatToString(|e.value|);
            var eq := |x| + |e.rawKey|;
            var comma := eq + 1 + |digits|;
            var p := x + Encode(e) + rest;
            |x + Encode(e)| == comma + 1 + |e.value| + 1 && |p| == |x + Encode(e)| + |rest|
            && p[|x|..eq] == e.rawKey && p[eq] == '='
            && p[eq + 1..comma] == digits && p[comma] == ','
            && p[comma + 1..comma + 1 + |e.value|] == e.value
  {
    var digits := NatToString(|e.value|);
    assert Encode(e) == e.rawKey + "=" + digits + "," + e.value + " ";
    FieldsAt(x, e.rawKey, digits, e.value, rest);
  }

  /** Where key, length and value sit in `x + key=length,value + rest`, for any texts. */
  lemma FieldsAt(x: string, k: string, d: string, v: string, rest: string)
    ensures var eq := |x| + |k|;
            var comma := eq + 1 + |d|;
            var p := x + (k + "=" + d + "," + v + " ") + rest;
            |x + (k + "=" + d + "," + v + " ")| == comma + 1 + |v| + 1
            && p[|x|..eq] == k && p[eq] == '='
            && p[eq + 1..comma] == d && p[comma] == ','
            && p[comma + 1..comma + 1 + |v|] == v
  {
    var enc := k + "=" + d + "," + v + " ";
    PartAt(x, enc, rest, 0, k);
    PartAt(x, enc, rest, |k| + 1, d);
    PartAt(x, enc, rest, |k| + 1 + |d| + 1, v);
  }

  /** A part of the middle text found at offset `o` sits at `|x| + o` in the whole. */
  lemma PartAt(x: string, enc: string, rest: string, o: nat, part: string)
    requires o + |part| <= |enc| && enc[o..o + |part|] == part
    ensures var p := x + enc + rest;
            p[|x| + o..|x| + o + |part|] == part && (o + |part| < |enc| ==> p[|x| + o + |part|] == enc[o + |part|])
  {
    var p := x + enc + rest;
    forall i | 0 <= i < |part|
      ensures p[|x| + o + i] == part[i]
    {
      assert part[i] == enc[o + i];
    }
  }

  /** The loop's '=' and ',' are the encoded ones, and it reads the whole value. */
  lemma StopsFound(p: string, from: nat, eq: nat, comma: nat, e: Entry)
    requires '=' !in e.rawKey
    requires eq == from + |e.rawKey| && comma == eq + 1 + |NatToString(|e.value|)|
    requires comma + 1 + |e.value| <= |p| && p[from..eq] == e.rawKey && p[eq] == '='
    requires p[eq + 1..comma] == NatToString(|e.value|) && p[comma] == ','
    requires p[comma + 1..comma + 1 + |e.value|] == e.value
    ensures Find(p, from, '=') == Some(eq) && Find(p, eq + 1, ',') == Some(comma)
    ensures ValueCount(p[eq + 1..comma]) == |e.value|
    ensures ReadValue(p, comma + 1, |e.value|) == e.value
  {
    SeparatorFound(p, from, eq, '=');
    DigitsHaveNoComma(NatToString(|e.value|));
    SeparatorFound(p, eq + 1, comma, ',');
    ToNumberIntToString(|e.value|);
    ReadValueWithin(p, comma + 1, |e.value|);
  }

  /** The first `c` from `lo` on is at `hi` when the text between holds none. */
  lemma SeparatorFound(p: string, lo: nat, hi: nat, c: char)
    requires lo <= hi < |p| && c !in p[lo..hi] && p[hi] == c
    ensures Find(p, lo, c) == Some(hi)
  {
    NotInSlice(p, lo, hi, c);
    FindFirst(p, lo, c, hi);
  }

  lemma DigitsHaveNoComma(s: string)
    requires AllDigits(s)
    ensures ',' !in s
  {
  }

  lemma NotInSlice(p: string, lo: nat, hi: nat, c: char)
    requires lo <= hi <= |p| && c !in p[lo..hi]
    ensures forall j :: lo <= j < hi ==> p[j] != c
  {
    forall j | lo <= j < hi
      ensures p[j] != c
    {
      assert p[j] == p[lo..hi][j - lo];
    }
  }

  lemma WellFormedTail(es: seq<Entry>)
    requires es != [] && WellFormedKeys(es)
    ensures WellFormedKeys(es[1..])
  {
    assert forall k :: 0 <= k < |es| - 1 ==> es[1..][k] == es[k + 1];
  }

  /** What a dump line denotes once `fromDump` and `fillAdditional` are done with it. */
  datatype NodeRecord = NodeRecord(
    className: string,
    address: string,
    properties: map<string, string>,
    propertiesGroup: map<string, map<string, string>>,
    props: Derived)

  /** `s.slice(0, -1)` */
  function DropLast(s: string): string {
    if s == [] then [] else s[..|s| - 1]
  }

  /** `slice(0, indexOf(' '))` of the trimmed line: without a space, all but its last character. */
  function HeadPart(line: string): (r: string)
    ensures ' ' !in r
  {
    match IndexOf(line, ' ')
    case Some(k) => line[..k]
    case None => DropLast(line)
  }

  /** `slice(indexOf(' ') + 1)`: without a space, the whole line. */
  function PropPart(line: string): string {
    match IndexOf(line, ' ')
    case Some(k) => line[k + 1..]
    case None => line
  }

  function ClassNameOf(head: string): (r: string)
    ensures '@' !in r && (' ' !in head ==> ' ' !in r)
  {
    match IndexOf(head, '@')
    case Some(k) => head[..k]
    case None => DropLast(head)
  }

  function AddressOf(head: string): (r: string)
    ensures ' ' !in head ==> ' ' !in r
  {
    match IndexOf(head, '@')
    case Some(k) => head[k + 1..]
    case None => head
  }

  /** `ViewNode.fromDump(line)` as a value; None where it never returns normally (a loop runs past the end of the line). */
  function ParseLine(dumpLine: string): (r: Option<NodeRecord>)
    ensures r.Some? ==> ' ' !in r.value.className && '@' !in r.value.className && ' ' !in r.value.address
    ensures r.Some? ==> r.value.props == FillAdditional(Store(r.value.properties, r.value.propertiesGroup))
    ensures r.Some? ==> GroupsWithin(Store(r.value.properties, r.value.propertiesGroup))
  {
    var line := TrimLeft(dumpLine);
    var head := HeadPart(line);
    match ScanFrom(PropPart(line), 0)
    case None => None
    case Some(ps) =>
      var st := StoreOf(ps);
      GroupsWithinProperties(ps);
      Some(NodeRecord(ClassNameOf(head), AddressOf(head), st.properties, st.groups, FillAdditional(st)))
  }

  /** A line as the device writes it, before indentation. */
  function DumpLine(className: string, address: string, es: seq<Entry>): string {
    className + "@" + address + " " + EncodeAll(es)
  }

  function Spaces(n: nat): string {
    if n == 0 then "" else " " + Spaces(n - 1)
  }

  /**
   * A line written as indentation, `className@address`, a space and encoded
   * properties parses back to that class name, that address and the store of
   * those properties.
   */
  lemma ParseLineRoundTrip(n: nat, className: string, address: string, es: seq<Entry>)
    requires className != [] && !IsJsSpace(className[0])
    requires ' ' !in className && '@' !in className && ' ' !in address
    requires WellFormedKeys(es)
    ensures ParseLine(Spaces(n) + DumpLine(className, address, es))
            == Some(NodeRecord(className, address, StoreOf(ParsedAll(es)).properties,
                               StoreOf(ParsedAll(es)).groups, FillAdditional(StoreOf(ParsedAll(es)))))
  {
    var head := className + "@" + address;
    var body := DumpLine(className, address, es);
    assert body[0] == className[0];
    TrimSpaces(n, body);
    SplitAt(head, ' ', EncodeAll(es));
    SplitAt(className, '@', address);
    ScanEncoded("", es);
    assert "" + EncodeAll(es) == EncodeAll(es);
    var line := TrimLeft(Spaces(n) + body);
    assert HeadPart(line) == head;
    assert PropPart(line) == EncodeAll(es);
    assert ClassNameOf(head) == className && AddressOf(head) == address;
    assert ScanFrom(PropPart(line), 0) == Some(ParsedAll(es));
  }

  /** The first `c` of `a + [c] + b`, when `a` has none, splits it back into `a` and `b`. */
  lemma SplitAt(a: string, c: char, b: string)
    requires c !in a
    ensures IndexOf(a + [c] + b, c) == Some(|a|)
    ensures (a + [c] + b)[..|a|] == a && (a + [c] + b)[|a| + 1..] == b
  {
    var s := a + [c] + b;
    assert s[..|a|] == a;
    IndexOfFirst(s, c, |a|);
  }

  lemma {:induction false} TrimSpaces(n: nat, body: string)
    requires body != [] && !IsJsSpace(body[0])
    ensures TrimLeft(Spaces(n) + body) == body
  {
    if n > 0 {
      TrimSpaces(n - 1, body);
      assert (Spaces(n) + body)[1..] == Spaces(n - 1) + body;
    }
  }

  lemma IndexOfFirst(s: string, c: char, k: nat)
    requires k < |s| && s[k] == c && c !in s[..k]
    ensures IndexOf(s, c) == Some(k)
  {
  }

  // ------------------------------------------------------------- the class

  class ViewNode {
    var className: string
    var address: Option<string>       // undefined for the synthetic Root
    var children: seq<ViewNode>
    var props: Option<Derived>        // None until `fillAdditional` runs
    var properties: map<string, string>
    var propertiesGroup: map<string, map<string, string>>
    var level: int
    var parent: ViewNode?

    constructor (className: string, address: Option<string>)
      ensures this.className == className && this.address == address
      ensures children == [] && props == None && properties == map[] && propertiesGroup == map[]
      ensures level == 0 && parent == null
    {
      this.className := className;
      this.address := address;
      children := [];
      props := None;
      properties := map[];
      propertiesGroup := map[];
      level := 0;
      parent := null;
    }

    /** Everything a node knows about its own line, as opposed to its place in the tree. */
    function Content(): (string, Option<string>, Option<Derived>, Store)
      reads this
    {
      (className, address, props, Store(properties, propertiesGroup))
    }

    /** The node is what `rec` describes. */
    ghost predicate Holds(rec: NodeRecord)
      reads this
    {
      Content() == (rec.className, Some(rec.address), Some(rec.props), Store(rec.properties, rec.propertiesGroup))
    }

    method AddChild(node: ViewNode)
      modifies this, node
      ensures node.parent == this && node.level == old(level) + 1
      ensures children == old(children) + [node]
      ensures node != this ==> level == old(level) && parent == old(parent) && node.children == old(node.children)
      ensures Content() == old(Content()) && node.Content() == old(node.Content())
    {
      node.parent := this;
      node.level := level + 1;
      children := children + [node];
    }

    method AddProperty(key: string, value: string, group: string)
      modifies this
      ensures Store(properties, propertiesGroup) == AddTo(old(Store(properties, propertiesGroup)), key, value, group)
      ensures className == old(className) && address == old(address) && props == old(props)
      ensures children == old(children) && level == old(level) && parent == old(parent)
    {
      var k := key;
      if EndsWith(k, "()") {
        k := k[..|k| - 2];
        if StartsWith(k, "get") {
          k := (if |k| > 3 then [ToLowerAscii(k[3])] else []) + (if |k| >= 4 then k[4..] else []);
        }
      }
      properties := properties[k := value];
      if group != "" {
        var g := [ToUpperAscii(group[0])] + group[1..];
        var before := if g in propertiesGroup then propertiesGroup[g] else map[];
        propertiesGroup := propertiesGroup[g := before[k := value]];
      }
    }

    /** `ViewNode.fromDump(dumpLine)`; None where it never returns normally (a loop runs past the end of the line). */
    static method FromDump(dumpLine: string) returns (r: Option<ViewNode>)
      ensures r.None? <==> ParseLine(dumpLine).None?
      ensures r.Some? ==> fresh(r.value) && r.value.Holds(ParseLine(dumpLine).value)
      ensures r.Some? ==> r.value.children == [] && r.value.level == 0 && r.value.parent == null
    {
      var line := TrimLeft(dumpLine);
      var head := HeadPart(line);
      var p := PropPart(line);
      var className, address := ClassNameOf(head), AddressOf(head);
      var node := new ViewNode(className, Some(address));
      var index := 0;
      ghost var done: seq<Property> := [];
      ghost var whole := ScanFrom(p, 0);
      PrependNothing(whole);
      while index < |p|
        invariant whole == Prepend(done, ScanFrom(p, index))
        invariant Store(node.properties, node.propertiesGroup) == StoreOf(done)
        invariant node.className == className && node.address == Some(address)
        invariant node.children == [] && node.level == 0 && node.parent == null && node.props == None
        decreases |p| - index
      {
        var group, key, value, next := ReadProperty(p, index);
        if next.None? {
          ScanStops(p, index);
          ParseLineOf(dumpLine, None);
          return None;
        }
        node.AddProperty(key, value, group);
        ghost var prop := Property(group, key, value);
        ScanContinues(p, index, prop, next.value);
        PrependSnoc(done, prop, ScanFrom(p, next.value));
        StoreOfSnoc(done, prop);
        done := done + [prop];
        index := next.value;
      }
      node.props := Some(FillAdditional(Store(node.properties, node.propertiesGroup)));
      PrependNothing(Some(done));
      ParseLineOf(dumpLine, Some(done));
      return Some(node);
    }
  }

  lemma PrependNothing(x: Option<seq<Property>>)
    ensures Prepend([], x) == x
    ensures x.Some? ==> Prepend(x.value, Some([])) == x
  {
    if x.Some? {
      assert [] + x.value == x.value;
      assert x.value + [] == x.value;
    }
  }

  lemma ScanStops(p: string, index: nat)
    requires index < |p| && Turn(p, index).None?
    ensures ScanFrom(p, index).None?
  {
  }

  lemma ScanContinues(p: string, index: nat, prop: Property, next: nat)
    requires index < |p| && Turn(p, index) == Some((prop, next))
    ensures ScanFrom(p, index) == Prepend([prop], ScanFrom(p, next))
  {
  }

  /** One turn of the loop reads the raw key up to '=', the length up to ',', then the value. */
  lemma TurnAt(p: string, i: nat, eq: nat, comma: nat, rawKey: string, lengthText: string,
               value: string, next: nat)
    requires Find(p, i, '=') == Some(eq) && rawKey == p[i..eq]
    requires Find(p, eq + 1, ',') == Some(comma) && lengthText == p[eq + 1..comma]
    requires value == ReadValue(p, comma + 1, ValueCount(lengthText))
    requires next == comma + 1 + ValueCount(lengthText) + 1
    ensures Turn(p, i) == Some((SplitGroup(rawKey, value), next))
  {
    TurnIsBetween(p, i, eq, comma);
  }

  lemma TurnIsBetween(p: string, i: nat, eq: nat, comma: nat)
    requires Find(p, i, '=') == Some(eq) && Find(p, eq + 1, ',') == Some(comma)
    ensures i <= eq < comma <= |p| && Turn(p, i) == Some(TurnBetween(p, i, eq, comma))
  {
  }

  /** What `ParseLine` gives once the property text of the line has been scanned. */
  lemma ParseLineOf(dumpLine: string, scanned: Option<seq<Property>>)
    requires ScanFrom(PropPart(TrimLeft(dumpLine)), 0) == scanned
    ensures scanned.None? ==> ParseLine(dumpLine).None?
    ensures scanned.Some? ==>
              var head := HeadPart(TrimLeft(dumpLine));
              var st := StoreOf(scanned.value);
              ParseLine(dumpLine) == Some(NodeRecord(ClassNameOf(head), AddressOf(head), st.properties,
                                                     st.groups, FillAdditional(st)))
  {
  }

  lemma PrependSnoc(done: seq<Property>, prop: Property, rest: Option<seq<Property>>)
    ensures Prepend(done, Prepend([prop], rest)) == Prepend(done + [prop], rest)
  {
    if rest.Some? {
      assert done + ([prop] + rest.value) == (done + [prop]) + rest.value;
    }
  }

  lemma StoreOfSnoc(done: seq<Property>, prop: Property)
    ensures StoreOf(done + [prop]) == AddTo(StoreOf(done), prop.key, prop.value, prop.group)
  {
    assert (done + [prop])[..|done|] == done;
  }

  /**
   * One turn of the property loop of `fromDump`, from `index`: the key up
   * to '=', split at its first colon; the length up to ','; then that many
   * characters of value and one separator.  `next` is None where the
   * JavaScript never finds the '=' or the ','.
   */
  method ReadProperty(p: string, index: nat) returns (group: string, key: string, value: string, next: Option<nat>)
    requires index < |p|
    ensures next.None? <==> Turn(p, index).None?
    ensures next.Some? ==> Turn(p, index) == Some((Property(group, key, value), next.value))
  {
    var rawKey, eq := ReadUntil(p, index, '=');
    group, key, value := "", "", "";
    if eq.None? {
      TurnFails(p, index);
      return group, key, value, None;
    }
    group, key := SplitKey(rawKey);
    var i := eq.value + 1;
    var lengthText, comma := ReadUntil(p, i, ',');
    if comma.None? {
      TurnFails(p, index);
      return group, key, value, None;
    }
    var valueLength := ValueCount(lengthText);
    i := comma.value + 1;
    value := ReadChars(p, i, valueLength);
    i := i + valueLength;
    i := i + 1;
    TurnAt(p, index, eq.value, comma.value, rawKey, lengthText, value, i);
    return group, key, value, Some(i);
  }

  /** A turn fails when the '=' or, after it, the ',' never comes. */
  lemma TurnFails(p: string, i: nat)
    ensures Find(p, i, '=').None? ==> Turn(p, i).None?
    ensures Find(p, i, '=').Some? && Find(p, Find(p, i, '=').value + 1, ',').None? ==> Turn(p, i).None?
  {
  }

  /** The group and key `fromDump` cuts from a raw key at its first colon. */
  method SplitKey(rawKey: string) returns (group: string, key: string)
    ensures forall v :: SplitGroup(rawKey, v) == Property(group, key, v)
  {
    group := "miscellaneous";
    key := rawKey;
    if ':' in key {
      var colon := IndexOf(key, ':').value;
      group := key[..colon];
      key := key[colon + 1..];
    }
  }

  /**
   * `while (propPart[index] !== stop) text += propPart[index++]`: the text
   * up to the next `stop`, or None where no `stop` follows and the loop
   * runs past the end of the line, never returning normally.
   */
  method ReadUntil(p: string, from: nat, stop: char) returns (text: string, at: Option<nat>)
    requires from <= |p|
    ensures at == Find(p, from, stop)
    ensures at.Some? ==> text == p[from..at.value]
  {
    var index := from;
    text := "";
    while index < |p| && p[index] != stop
      invariant from <= index <= |p|
      invariant text == p[from..index]
      invariant Find(p, from, stop) == Find(p, index, stop)
    {
      text := text + [p[index]];
      index := index + 1;
    }
    if index == |p| {
      return text, None;
    }
    return text, Some(index);
  }

  /** `for (i = 0; i < count; i++) value += propPart[index++]` */
  method ReadChars(p: string, from: nat, count: nat) returns (value: string)
    ensures value == ReadValue(p, from, count)
    ensures from + count <= |p| ==> value == p[from..from + count]
  {
    value := "";
    var i := 0;
    while i < count
      invariant 0 <= i <= count
      invariant value == ReadValue(p, from, i)
    {
      value := value + CharAt(p, from + i);
      i := i + 1;
    }
    if from + count <= |p| {
      ReadValueWithin(p, from, count);
    }
  }

  // ------------------------------------------------------------- inspect

  /** A node as `inspect` reads it: its groups in key order, and its children. */
  datatype Tree = Tree(className: string, level: nat, groups: seq<Group>, children: seq<Tree>)
  datatype Group = Group(name: string, entries: seq<(string, string)>)

  function Indent(level: nat): string {
    if level == 0 then "" else Indent(level - 1) + "    "
  }

  function EntriesText(entries: seq<(string, string)>, level: nat): string {
    if entries == [] then ""
    else "\n" + Indent(level + 2) + entries[0].0 + "=\"" + entries[0].1 + "\"" + EntriesText(entries[1..], level)
  }

  function GroupsText(groups: seq<Group>, level: nat): string {
    if groups == [] then ""
    else "\n" + Indent(level + 1) + groups[0].name + " => " + EntriesText(groups[0].entries, level)
         + GroupsText(groups[1..], level)
  }

  /** `inspect()` as written: the children are shown only when there are more than one. */
  function InspectAsWritten(t: Tree): (r: string)
    ensures StartsWith(r, Indent(t.level) + "<" + t.className)
    ensures |t.children| <= 1 ==> EndsWith(r, " />\n")
    ensures |t.children| > 1 ==> EndsWith(r, "</" + t.className + ">\n")
    decreases t, 1
  {
    Indent(t.level) + "<" + t.className + GroupsText(t.groups, t.level)
    + if |t.children| > 1 then
        ">\n" + ChildrenAsWritten(t, 0) + Indent(t.level) + "</" + t.className + ">\n"
      else " />\n"
  }

  function ChildrenAsWritten(t: Tree, k: nat): string
    decreases t, 0, |t.children| - k
  {
    if k >= |t.children| then "" else InspectAsWritten(t.children[k]) + ChildrenAsWritten(t, k + 1)
  }

  /** A node with exactly one child prints as if it had none. */
  lemma OnlyChildDropped(t: Tree)
    requires |t.children| == 1
    ensures InspectAsWritten(t) == InspectAsWritten(t.(children := []))
  {
  }

  /** `inspect()` as intended: any child opens the element. */
  function Inspect(t: Tree): (r: string)
    ensures StartsWith(r, Indent(t.level) + "<" + t.className)
    ensures |t.children| == 0 ==> EndsWith(r, " />\n")
    ensures |t.children| > 0 ==> EndsWith(r, "</" + t.className + ">\n")
    decreases t, 1
  {
    Indent(t.level) + "<" + t.className + GroupsText(t.groups, t.level)
    + if |t.children| > 0 then
        ">\n" + ChildrenText(t, 0) + Indent(t.level) + "</" + t.className + ">\n"
      else " />\n"
  }

  function ChildrenText(t: Tree, k: nat): string
    decreases t, 0, |t.children| - k
  {
    if k >= |t.children| then "" else Inspect(t.children[k]) + ChildrenText(t, k + 1)
  }

  /** Every child's rendering appears inside its parent's. */
  lemma ChildShown(t: Tree, i: nat)
    requires i < |t.children|
    ensures Includes(Inspect(t), Inspect(t.children[i]))
  {
    var j := ChildrenContain(t, 0, i);
    var pre, post := InspectParts(t);
    var at := OccursInside(pre, ChildrenText(t, 0), post, Inspect(t.children[i]), j);
  }

  /** A node with children prints as an opening tag, its children's text and a closing tag. */
  lemma InspectParts(t: Tree) returns (pre: string, post: string)
    requires |t.children| > 0
    ensures Inspect(t) == pre + ChildrenText(t, 0) + post
  {
    pre := Indent(t.level) + "<" + t.className + GroupsText(t.groups, t.level) + ">\n";
    post := Indent(t.level) + "</" + t.className + ">\n";
  }

  lemma {:induction false} ChildrenContain(t: Tree, k: nat, i: nat) returns (j: nat)
    requires k <= i < |t.children|
    ensures OccursAt(ChildrenText(t, k), Inspect(t.children[i]), j)
    decreases i - k
  {
    var here := Inspect(t.children[k]);
    var rest := ChildrenText(t, k + 1);
    assert ChildrenText(t, k) == here + rest;
    if k == i {
      assert (here + rest)[0..|here|] == here;
      j := 0;
    } else {
      var j' := ChildrenContain(t, k + 1, i);
      j := OccursInside(here, rest, "", Inspect(t.children[i]), j');
      assert here + rest + "" == here + rest;
    }
  }

  lemma OccursInside(pre: string, s: string, post: string, part: string, j: nat) returns (at: nat)
    requires OccursAt(s, part, j)
    ensures at == |pre| + j
    ensures OccursAt(pre + s + post, part, at)
    ensures Includes(pre + s + post, part)
  {
    at := |pre| + j;
    var whole := pre + s + post;
    assert whole[|pre|..|pre| + |s|] == s;
    assert whole[at..at + |part|] == s[j..j + |part|];
    assert 0 <= at <= |whole| && OccursAt(whole, part, at);
  }
}
