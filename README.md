# droidium core in Dafny

A model of the core of droidium, a Node.js toolkit for driving Android
devices. It covers two halves.

- **ViewServer side.** This half reads the view hierarchy that Android's
  ViewServer dumps.
  - `ViewServer` cleans up the raw reply of a `DUMP` command. It rebuilds
    the view tree from the indentation of the dump's lines, and scans the
    lines for the first view a selector accepts (`findView`).
  - `ViewNodes` parses one dump line into a `ViewNode`
    (`ViewNode.fromDump`). It stores properties under normalised keys and
    capitalised groups (`addProperty`), and derives the summary `props`
    (`fillAdditional`). It also prints a tree (`inspect`).
- **UiAutomator side.** This half describes views to the on-device
  UiAutomator server.
  - `SelectorFields` holds the table of the 25 selector fields, their
    mask bits and the slots a selector fills.
  - `UiSelector` is the `Selector` class with `set`, `remove`, `child`,
    `sibling` and `clone`. One class stands for both copies of the source:
    `checkRegex` is true for `lib/uiautomator/Selector.js`, whose
    constructor also checks that `...Matches` fields hold a RegExp, and
    false for `src/uiautomator/Selector.js`.
  - `Comparator` models the source text `getComparator` generates and the
    predicate that text compiles to.
  - `UiObjects` is the `UiObject` class. Its `at`, `child` and `sibling`
    derive new objects from selector clones, and every other operation
    yields the JSON-RPC request it would send.

`Js` models the slice of JavaScript these files depend on:

- truthiness and `||`;
- `Number()` on decimal text and `String()` of integers;
- `>>> 0` and `toString(16)`;
- loose and strict equality against a string;
- `trimLeft`, `indexOf`, `startsWith`, `endsWith` and `includes`.

Where the JavaScript never returns normally, the model returns
`Err(Diverges)`. This happens in `fromDump`'s scanning loops on a line
without `=` or `,`: the loop runs past the end of the line.
A property read on `undefined` becomes `Err(TypeError)`. A `throw Error(m)`
becomes `Err(Thrown(m))`.

The tree builder is given twice.

- `ViewServer.RunLines` states on plain values (a stack of line indices,
  parents and levels) what `parse` does with each line.
- `ViewServer.ParseDump` builds the `ViewNode` objects step by step, as the
  JavaScript does. It is proved to link every node to exactly the parent,
  level and children `RunLines` gives it.

Indentation 0 is handled as the code does it. A line at indentation 0 is
attached to the top of the stack without being pushed. A line that comes
back to indentation 0 after deeper lines pops Root off the stack, and the
next `addChild` then fails. `RunLines` reports that case as
`Err(TypeError)`.

## Model

| member | source | states |
|---|---|---|
| Js.ToNumberIntToString | lib/views/ViewNode.js:105 | `Number(String(n)) === n` for every integer n. |
| Js.HexRoundTrip | lib/views/ViewNode.js:105 | `toString(16)` writes only hex digits, and reading them back gives the number. |
| Js.TrimLeftDrops | lib/views/ViewNode.js:19 | `trimLeft` leaves a suffix that starts with no white space, and everything it removed is white space. |
| Js.IndexOf | lib/views/ViewNode.js:21 | `indexOf` finds the first occurrence, or reports none when the character is absent. |
| Js.ToNumber | lib/views/ViewNode.js:47 | `Number()` of text that starts with neither a digit nor a sign is not a number. Without a minus sign the number read is never negative, and with one it is never positive. |
| Js.LooseEquals | lib/uiautomator/Selector.js:98 | A missing property is `==` only to `undefined` and `null`, and `===` implies `==`. |
| Js.Uint32OfInt32 | lib/views/ViewNode.js:105 | On a signed 32-bit integer, `>>> 0` adds 2^32 to a negative value and keeps the rest. |
| ViewNodes.NormalizeKey | lib/views/ViewNode.js:138-144 | Keys without a trailing `()` are kept. A key ending in `()` that does not start with `get` loses the `()`; `get()` becomes the empty key. A key never grows. |
| ViewNodes.GetterKey | lib/views/ViewNode.js:138-144 | `getXyz()` is stored under `xyz`: the `get` and `()` are dropped and the next letter is lower-cased. |
| ViewNodes.Capitalise | lib/views/ViewNode.js:147 | The group name keeps its length and every character after the first. |
| ViewNodes.AddTo | lib/views/ViewNode.js:137-151 | `addProperty` stores the value under the normalised key. Without a group the groups are untouched; with one, the value is also filed under the capitalised group and the normalised key. |
| ViewNodes.KeyStored | lib/views/ViewNode.js:145 | A key is in `properties` exactly when some property of the line normalises to it. |
| ViewNodes.LastWriteWins | lib/views/ViewNode.js:145 | A stored key holds the value of the last property normalised to it. |
| ViewNodes.PropertyAfterAdd | lib/views/ViewNode.js:137-151 | One `addProperty` changes only the entry for its own normalised key. |
| ViewNodes.GroupStored | lib/views/ViewNode.js:146-150 | An entry (group, key) exists exactly when some property with a non-empty group capitalises to that group and normalises to that key. |
| ViewNodes.GroupedByCapitalisedName | lib/views/ViewNode.js:146-150 | A grouped entry holds the value of the last property filed under it. |
| ViewNodes.GroupAfterAdd | lib/views/ViewNode.js:146-150 | One `addProperty` changes only the group entry it files under. |
| ViewNodes.GroupUntouched | lib/views/ViewNode.js:146-150 | A property filed elsewhere leaves a group entry as it was. |
| ViewNodes.GroupsWithinProperties | lib/views/ViewNode.js:145-150 | After any sequence of `addProperty` calls, group names are non-empty and every grouped key is also a key of `properties`. |
| ViewNodes.Flag | lib/views/ViewNode.js:101-103 | `Boolean(x) \|\| false` is true exactly for present, non-empty text. |
| ViewNodes.FlagReadsFalseAsTrue | lib/views/ViewNode.js:101-103 | The dumped text "false" reads as true. |
| ViewNodes.FlagFixed | lib/views/ViewNode.js:101-103 | A corrected flag is true only for present, non-empty text. |
| ViewNodes.FlagFixedRoundTrip | lib/views/ViewNode.js:101-103 | The corrected flag reads back the boolean the dump wrote. |
| ViewNodes.TextColor | lib/views/ViewNode.js:104-106 | Without a non-empty `mCurTextColor` the colour is `#00000000`. In every case it is `#` followed by hex digits. |
| ViewNodes.TextColorIsUnsignedArgb | lib/views/ViewNode.js:104-106 | A signed 32-bit `mCurTextColor` comes out as the hex of the same colour taken unsigned. |
| ViewNodes.TextColorOfNumber | lib/views/ViewNode.js:105 | A colour written as an integer is printed as `#` and the hex digits of that integer taken unsigned. |
| ViewNodes.FillAdditional | lib/views/ViewNode.js:89-107 | `props` takes `id` and `description` from the properties. `x`, `y`, `width` and `height` are the numbers read, or 0. `visibility` is the stored text, or `GONE` when missing or empty. `isClickable`, `isEnabled` and `willNotDraw` follow `Flag`. `textColor` is `TextColor`. |
| ViewNodes.Find | lib/views/ViewNode.js:34 | The key loop stops at the first `=` at or after the index. None, when there is no `=`, stands for a loop that runs past the end of the line and never returns normally. |
| ViewNodes.FindFirst | lib/views/ViewNode.js:46 | The first stop character after `from` is the one the loop finds. |
| ViewNodes.ReadValueWithin | lib/views/ViewNode.js:52 | When the line is long enough, the value loop reads exactly the next n characters. |
| ViewNodes.ReadValue | lib/views/ViewNode.js:52 | The value loop appends at least one character per turn. |
| ViewNodes.ReadValuePastEnd | lib/views/ViewNode.js:52 | A length that runs past the end of the line appends `undefined` for a missing character. |
| ViewNodes.SplitGroupParts | lib/views/ViewNode.js:33-39 | Splitting at the first colon loses nothing, and the group holds no colon. Without a colon the group is `miscellaneous` and the key is the raw key. |
| ViewNodes.Turn | lib/views/ViewNode.js:31-56 | One pass of the property loop always moves the index forward. |
| ViewNodes.TurnUnsplit | lib/views/ViewNode.js:33-39 | The property a pass reads has no `=` in its key or group and no `:` in its group. |
| ViewNodes.TurnFails | lib/views/ViewNode.js:34-46 | A pass fails when no `=` follows the index, or no `,` follows the `=`. |
| ViewNodes.ScanFrom | lib/views/ViewNode.js:30-56 | Every property the whole loop reads is split as `TurnUnsplit` says. |
| ViewNodes.ScanEncoded | lib/views/ViewNode.js:31-56 | Properties encoded as `key=length,value` and separated by one character scan back to exactly those properties. |
| ViewNodes.ScanOne | lib/views/ViewNode.js:31-56 | One encoded property followed by anything scans as that property, then the rest. |
| ViewNodes.StopsFound | lib/views/ViewNode.js:34-52 | In an encoded property the loops stop at its own `=` and `,`, and read its whole value. |
| ViewNodes.ParseLineRoundTrip | lib/views/ViewNode.js:18-84 | An indented dump line `class@address k=n,v ...` parses back to that class name, that address, the store of those properties and their `fillAdditional` summary. |
| ViewNodes.ClassNameOf | lib/views/ViewNode.js:26-27 | The class name holds no `@`, and no space when the head holds none. |
| ViewNodes.ParseLine | lib/views/ViewNode.js:18-84 | A parsed line has a class name without space or `@` and an address without space. Its `props` are `FillAdditional` of its store, and its groups lie within its properties. None stands for a line on which a loop never returns normally. |
| ViewNodes.ViewNode.constructor | lib/views/ViewNode.js:8-16 | A new node has the given class name and address, no children, empty properties and level 0. |
| ViewNodes.ViewNode.AddChild | lib/views/ViewNode.js:131-135 | The child gets this node as parent and this level plus one, and is appended to `children`. Nothing else changes. |
| ViewNodes.ViewNode.AddProperty | lib/views/ViewNode.js:137-151 | The node's two maps become `AddTo` of the old ones. Nothing else changes. |
| ViewNodes.ViewNode.FromDump | lib/views/ViewNode.js:18-84 | Returns a fresh node that holds exactly `ParseLine(line)`, or none where a loop runs past the end of the line and never returns normally. |
| ViewNodes.ReadProperty | lib/views/ViewNode.js:33-55 | One pass of the imperative loop gives the property and next index of `Turn`. |
| ViewNodes.SplitKey | lib/views/ViewNode.js:35-39 | The group is the text before the first colon and the key the text after it; without a colon the group is `miscellaneous`. |
| ViewNodes.ReadUntil | lib/views/ViewNode.js:34 | The scan stops where `Find` says and returns the text before the stop. |
| ViewNodes.ReadChars | lib/views/ViewNode.js:52 | The value loop reads `ReadValue`, which is the next n characters when the line holds them. |
| ViewNodes.OnlyChildDropped | lib/views/ViewNode.js:175-182 | As written, a node with exactly one child prints the same as a leaf. |
| ViewNodes.InspectAsWritten | lib/views/ViewNode.js:153-185 | As written, the text starts with the indented `<className`. It ends with ` />` for at most one child, and with `</className>` for more. |
| ViewNodes.Inspect | lib/views/ViewNode.js:153-185 | Corrected, the text starts with the indented `<className`. It ends with ` />` for a leaf, and with `</className>` when there are children. |
| ViewNodes.ChildShown | lib/views/ViewNode.js:153-185 | With any children, every child's rendering appears inside its parent's. |
| ViewNodes.ChildrenContain | lib/views/ViewNode.js:177 | The children's text contains each child's rendering. |
| ViewServer.RemoveTerminators | lib/views/ViewServer.js:127 | The global replace never lengthens the reply. |
| ViewServer.RemoveTerminatorsIdentity | lib/views/ViewServer.js:127 | The replace leaves a reply unchanged exactly when the pattern matches nowhere. |
| ViewServer.MatchesAtShape | lib/views/ViewServer.js:127 | The pattern matches the marker itself, and any match is `DONE`, one character, then `\nDONE\n`. |
| ViewServer.StripTrailingMarker | lib/views/ViewServer.js:127 | A body without a marker of its own followed by `DONE.\nDONE\n` becomes the body. |
| ViewServer.NoMatchAcrossMarker | lib/views/ViewServer.js:127 | The pattern cannot match where it would straddle the end of the body and the marker. |
| ViewServer.CloseReply | lib/views/ViewServer.js:126-135 | The reply handed on is non-empty. An unmarked reply loses at most one trailing newline. |
| ViewServer.TerminatedReply | lib/views/ViewServer.js:127-134 | A marked reply yields the body less one trailing newline. An empty result goes nowhere. |
| ViewServer.Split | lib/views/ViewServer.js:36 | Splitting gives at least one line and no line holds a newline. |
| ViewServer.JoinSplit | lib/views/ViewServer.js:36 | Joining the lines with newlines gives back the dump. |
| ViewServer.Indentation | lib/views/ViewServer.js:162-168 | A defined indentation points at a non-space character. Undefined means the line is all spaces. |
| ViewServer.IndentationCounts | lib/views/ViewServer.js:162-168 | The indentation is the run of spaces before the first other character. It is undefined exactly for an all-space line. |
| ViewServer.IndentationIs | lib/views/ViewServer.js:162-168 | Spaces up to position k followed by a non-space give indentation k. |
| ViewServer.GetIndentation | lib/views/ViewServer.js:162-168 | The counting loop returns `Indentation(line)`. |
| ViewServer.PushGood | lib/views/ViewServer.js:44-56 | Pushing a new line on the stack keeps the builder's invariant: each stack entry k sits at tree level k. |
| ViewServer.AttachToTopGood | lib/views/ViewServer.js:64 | Attaching to the top without pushing keeps the invariant. |
| ViewServer.StepGood | lib/views/ViewServer.js:44-64 | Every branch of the loop body keeps the invariant and adds one parent. |
| ViewServer.Step | lib/views/ViewServer.js:44-64 | A line fails exactly when it returns to indentation 0 from deeper, or has undefined indentation at indentation 0. Otherwise it adds one parent, taken from the stack, and keeps the earlier ones. |
| ViewServer.NewNodeLevel | lib/views/ViewServer.js:44-64 | A line fails exactly when it returns to indentation 0 from deeper, or has undefined (all-space) indentation while at indentation 0. Otherwise the new node's level is one more than its parent's. |
| ViewServer.LevelsExtend | lib/views/ViewServer.js:45 | Recording a new node's level leaves earlier levels as they were. |
| ViewServer.RunLines | lib/views/ViewServer.js:40-65 | A successful build keeps the invariant and gives every line a parent. |
| ViewServer.RunFrom | lib/views/ViewServer.js:40-65 | Building from line i on adds one parent per remaining line. |
| ViewServer.EveryLineParses | lib/views/ViewServer.js:41 | A build that finishes has parsed every line. |
| ViewServer.ChildrenOf | lib/views/ViewServer.js:45-64 | A node's children are exactly the lines attached to it, in line order. |
| ViewServer.EachLineAttachedOnce | lib/views/ViewServer.js:40-65 | After a build every line hangs below an earlier line or below Root, one level deeper. |
| ViewServer.ReadNode | lib/views/ViewServer.js:41 | `fromDump` on line i returns a fresh node holding that line's record, or fails exactly when the record does. |
| ViewServer.AttachNode | lib/views/ViewServer.js:45 | `addChild` on the top of the stack extends the linked tree by the new node. No node's content changes. |
| ViewServer.LinkedAfterAdd | lib/views/ViewServer.js:45 | After `addChild` every node, old and new, has the parent, level and children the builder gives it. |
| ViewServer.NewNodeLinked | lib/views/ViewServer.js:45-46 | The new node has the recorded parent and level and no children. |
| ViewServer.LinksKept | lib/views/ViewServer.js:45 | Nodes other than the new parent keep their links. |
| ViewServer.DistinctGrows | lib/views/ViewServer.js:41 | Each line's node is a new object, distinct from Root and from every earlier node. |
| ViewServer.StackLevels | lib/views/ViewServer.js:38-64 | The node at stack position k has level k. |
| ViewServer.PlaceNode | lib/views/ViewServer.js:44-64 | One loop body succeeds exactly when `Step` does. It leaves the stack and tree that `Step` describes, and changes no node's content. |
| ViewServer.Unstack | lib/views/ViewServer.js:44-63 | The stack pops give the prefix the branch keeps, and it fails exactly when `Step` fails. |
| ViewServer.Unwind | lib/views/ViewServer.js:50-53 | The `while (indent <= lastIndent)` loop keeps the first `indent` entries and leaves `lastIndent` at `indent - 1`. |
| ViewServer.AddToTop | lib/views/ViewServer.js:54-56 | Attaching below the kept stack's top extends the linked tree. |
| ViewServer.DepthLevel | lib/views/ViewServer.js:44-64 | Each stack entry is a valid line index whose level is its stack position. |
| ViewServer.ParseDump | lib/views/ViewServer.js:33-67 | `parse` fails exactly when `RunLines` does, with the same error. Otherwise it returns a fresh Root whose nodes hold each line's record and are linked as `RunLines` says. |
| ViewServer.StartParse | lib/views/ViewServer.js:37-38 | The set-up is a fresh Root alone on the stack at indentation 0. |
| ViewServer.AddLine | lib/views/ViewServer.js:41-64 | One iteration either stops with the build's error or adds a fresh node and keeps the loop invariant. |
| ViewServer.ScanFound | lib/views/ViewServer.js:100-103 | The scan reports the first accepted line, and every earlier line passed. |
| ViewServer.ScanNothing | lib/views/ViewServer.js:100-104 | The scan finds nothing exactly when every line passes. |
| ViewServer.ScanStops | lib/views/ViewServer.js:100-103 | A failed scan stopped at a line whose step failed, after lines that passed. |
| ViewServer.StepOf | lib/views/ViewServer.js:100-102 | A line stops the scan exactly when it does not parse or the comparator throws, with Diverges or the comparator's error. |
| ViewServer.FindView | lib/views/ViewServer.js:91-104 | A comparator that fails to compile makes `findView` throw its error. A found node is the record of a line of the dump. |
| ViewServer.FindViewFirst | lib/views/ViewServer.js:91-104 | `findView` calls back with the first line whose node the comparator accepts, after every earlier line parsed and was rejected. |
| ViewServer.FindViewNothing | lib/views/ViewServer.js:99-104 | `findView` never calls back exactly when every line parses and is rejected. |
| ViewServer.PassRejects | lib/views/ViewServer.js:101-102 | A line passes exactly when it parses and the comparator answers false. |
| ViewServer.AcceptAccepts | lib/views/ViewServer.js:101-102 | An accepted line parses to a node the comparator accepts. |
| ViewServer.EmptyComparatorFindsNothing | lib/views/ViewServer.js:91-104 | A selector with no fields never calls back, unless a line makes the parser run past the end of the line. |
| SelectorFields.TableOrder | lib/uiautomator/Selector.js:7-33 | The table lists 25 fields, each at its own position. |
| SelectorFields.BitIsPower | lib/uiautomator/Selector.js:7-33 | Each field's mask is one bit, at the field's position in the table. |
| SelectorFields.BitsDisjoint | lib/uiautomator/Selector.js:7-33 | Distinct fields have disjoint masks. |
| SelectorFields.SetBit | lib/uiautomator/Selector.js:57 | `mask \|= fields[key]` adds that field and keeps the others. |
| SelectorFields.ClearBit | lib/uiautomator/Selector.js:63 | `mask &= ~fields[key]` drops that field and keeps the others. |
| SelectorFields.SetBits | lib/uiautomator/Selector.js:57 | After `\|=`, the mask holds exactly the old fields plus the new one. |
| SelectorFields.ClearBits | lib/uiautomator/Selector.js:63 | After `&= ~`, the mask holds exactly the old fields less the removed one. |
| SelectorFields.OrBitThenClear | lib/uiautomator/Selector.js:54-64 | Setting an absent bit and clearing it restores the mask. |
| SelectorFields.BitsStayInTable | lib/uiautomator/Selector.js:54-64 | `set` and `remove` never put a bit outside the table in the mask. |
| SelectorFields.FieldNamedIff | lib/uiautomator/Selector.js:55 | The lookup by key finds the field of that name, and finds nothing exactly when no field has it. |
| SelectorFields.FieldNamedRoundTrip | lib/uiautomator/Selector.js:7-33 | Looking up a field's own name gives the field. |
| SelectorFields.NamesDistinct | lib/uiautomator/Selector.js:7-33 | No two fields share a name. |
| SelectorFields.AssignField | lib/uiautomator/Selector.js:54-58 | `set` of a field stores the value and adds exactly that field's bit. |
| SelectorFields.UnassignField | lib/uiautomator/Selector.js:60-64 | `remove` of a field deletes its value and clears exactly that field's bit. |
| SelectorFields.AssignKnown | lib/uiautomator/Selector.js:54-58 | `set` of a key naming a field updates that field's value and bit. |
| SelectorFields.UnassignKnown | lib/uiautomator/Selector.js:60-64 | `remove` of a key naming a field deletes that field's value and bit. |
| SelectorFields.UnknownKey | lib/uiautomator/Selector.js:55 | `set` and `remove` of a key that names no field change nothing. |
| SelectorFields.AssignInStep | lib/uiautomator/Selector.js:54-58 | `set` keeps the mask and the set of stored fields in step. |
| SelectorFields.UnassignInStep | lib/uiautomator/Selector.js:60-64 | `remove` keeps the mask and the set of stored fields in step. |
| SelectorFields.AssignTwice | lib/uiautomator/Selector.js:54-58 | Setting a key twice is the same as setting it once to the second value. |
| SelectorFields.AssignThenUnassign | lib/uiautomator/Selector.js:54-64 | Removing a freshly set field restores the selector. |
| SelectorFields.AssignOther | lib/uiautomator/Selector.js:54-58 | `set` of one key leaves every other field's value as it was. |
| SelectorFields.QueryProblemIff | lib/uiautomator/Selector.js:47-48 | An entry is accepted exactly when its key is a field and, if checked, a `...Matches` key holds a RegExp. |
| SelectorFields.QueryErrorFirst | lib/uiautomator/Selector.js:46-51 | The constructor throws exactly when some entry is refused, and then with the first refused entry's message. |
| SelectorFields.QueryErrorAt | lib/uiautomator/Selector.js:46-51 | The first refused entry decides the message. |
| SelectorFields.ConstructOutcome | lib/uiautomator/Selector.js:40-52 | `new Selector(query)` throws exactly when an entry is refused. Otherwise the mask and values are in step, and a field is set exactly when some entry names it. |
| SelectorFields.AppliedInStep | lib/uiautomator/Selector.js:46-51 | Setting the entries in order keeps the mask and values in step. |
| SelectorFields.AppliedHas | lib/uiautomator/Selector.js:46-51 | A field ends up set exactly when some entry names it. |
| SelectorFields.AppliedLast | lib/uiautomator/Selector.js:46-51 | A set field holds the value of the last entry naming it. |
| UiSelector.Selector.Empty | lib/uiautomator/Selector.js:40-45 | A selector built without a query has an empty mask, no values and no relations. |
| UiSelector.Selector.New | lib/uiautomator/Selector.js:40-52 | The constructor throws exactly when `Construct` does. Otherwise it returns a fresh, valid selector holding `Construct`'s slots. |
| UiSelector.Selector.Set | lib/uiautomator/Selector.js:54-58 | The slots become `Assign` of the old ones and validity is kept. The relations are unchanged. |
| UiSelector.Selector.Remove | lib/uiautomator/Selector.js:60-64 | The slots become `Unassign` of the old ones and validity is kept. The relations are unchanged. |
| UiSelector.Selector.Child | lib/uiautomator/Selector.js:66-69 | `child` pushes `"child"`, then throws exactly when the query is refused. Only on success does it push the new selector. |
| UiSelector.Selector.Sibling | lib/uiautomator/Selector.js:71-74 | `sibling` is the same with `"sibling"`. |
| UiSelector.Selector.PushRelation | lib/uiautomator/Selector.js:66-74 | As written, a refused query leaves one more relation name than relation selector. |
| UiSelector.Selector.PushRelationChecked | lib/uiautomator/Selector.js:66-74 | Corrected: a refused query changes nothing, so the two relation lists stay the same length. |
| UiSelector.Selector.Clone | lib/uiautomator/Selector.js:76-88 | A fresh selector with the same slots and copies of both relation lists. |
| UiSelector.Selector.GetComparator | lib/uiautomator/Selector.js:90-110 | The comparator is `CompileAsWritten` of the set fields' clauses, in table order. |
| UiSelector.AppliedStep | lib/uiautomator/Selector.js:46-49 | Each turn of the constructor's loop is one `set`. |
| UiSelector.ConstructThrows | lib/uiautomator/Selector.js:46-48 | The first refused entry throws its message. |
| UiSelector.ConstructBuilds | lib/uiautomator/Selector.js:46-51 | Without a refused entry, the selector is all entries set in order. |
| UiSelector.LegacyBuildsAnyValues | src/uiautomator/Selector.js:36-46 | The older constructor accepts any value under any field key. |
| UiSelector.MatchesNeedsRegexOnlyInLib | lib/uiautomator/Selector.js:48 | A non-RegExp under a `...Matches` key throws in the newer class and is stored by the older one. |
| Comparator.SetFieldsOfMembers | lib/uiautomator/Selector.js:92-93 | A field is visited exactly when it is in the table and its bit is set. |
| Comparator.SetFieldsOfOrdered | lib/uiautomator/Selector.js:92 | The fields are visited in table order. |
| Comparator.ClausesInTableOrder | lib/uiautomator/Selector.js:92-93 | A field has a clause exactly when its bit is set, and the clauses follow table order. |
| Comparator.NoBitsNoClauses | lib/uiautomator/Selector.js:92-93 | An empty mask generates no clause. |
| Comparator.SingleSetField | lib/uiautomator/Selector.js:92-93 | A mask with one field generates that field's clause only. |
| Comparator.ClauseResult | lib/uiautomator/Selector.js:95-106 | A `includes`/`startsWith` line returns true only on present, non-empty text. |
| Comparator.Eval | lib/uiautomator/Selector.js:90-110 | When every line falls through, the function returns false. |
| Comparator.Readings | lib/uiautomator/Selector.js:95-106 | Each field reads the property its line reads: `text`, the class name, `props.description`, `props.id`, or `properties[key]`. |
| Comparator.EvalFirstDecides | lib/uiautomator/Selector.js:90-110 | The generated function is false exactly when every line falls through. Otherwise the first line that returns or throws decides. |
| Comparator.EvalIsDisjunction | lib/uiautomator/Selector.js:90-110 | When no line throws, the function is the disjunction of its lines. |
| Comparator.EmptySelectorMatchesNothing | lib/uiautomator/Selector.js:90-110 | A selector with no field set matches no node. |
| Comparator.SingleField | lib/uiautomator/Selector.js:90-110 | A one-field selector answers as that field's line. |
| Comparator.CodeEscape | lib/uiautomator/Selector.js:35-37 | A non-string is printed as itself. A string gets a `"` before its text and a `+` after it. When the string holds no quote, backslash or line break, the literal it opens never closes. |
| Comparator.PlainRunsOff | lib/uiautomator/Selector.js:36 | A literal whose remaining text holds no quote, backslash or line break never closes. |
| Comparator.LiteralRunsOff | lib/uiautomator/Selector.js:36 | A string literal reaching a newline before its closing quote never ends. |
| Comparator.StringValueUnterminated | lib/uiautomator/Selector.js:35-37 | `codeEscape` of a string opens a literal that the rest of its line never closes. |
| Comparator.ClassNameOkUnterminated | lib/uiautomator/Selector.js:98 | The generated `className == "OK+)` line leaves its literal open. |
| Comparator.LiteralShift | lib/uiautomator/Selector.js:94-106 | A literal's end does not depend on the text before it. |
| Comparator.EscapeRoundTrip | lib/uiautomator/Selector.js:35-37 | Corrected escaping reads back as the original string. |
| Comparator.EscapeSkips | lib/uiautomator/Selector.js:35-37 | No escaped character ends a literal. |
| Comparator.CodeEscapeFixed | lib/uiautomator/Selector.js:35-37 | Corrected, a string is quoted on both sides and its escaped text reads back as the string. A non-string is printed as itself. |
| Comparator.FixedLiteralCloses | lib/uiautomator/Selector.js:35-37 | Corrected `codeEscape` of any string gives a literal that closes right after its text. |
| Comparator.CompileAsWritten | lib/uiautomator/Selector.js:90-110 | As written, the outcome is decided only when every string value is plain text (no quote, backslash or line break). Then `new Function` rejects the code exactly when some clause holds a string, or a number before `.test`. Otherwise it yields the clauses. |
| Comparator.Compile | lib/uiautomator/Selector.js:90-110 | With corrected escaping, the code is rejected exactly when a number stands before `.test`, with a SyntaxError. Otherwise it yields the clauses. |
| Comparator.StringValueRefused | lib/uiautomator/Selector.js:94-109 | As written, a set string value makes `getComparator` throw a SyntaxError when every string value is plain text. |
| Comparator.QuoteClosesLiteral | lib/uiautomator/Selector.js:36 | A value whose second character is `"` closes the literal `codeEscape` opens, so the outcome is not decided by the model. |
| Comparator.TextSelectorMatches | lib/uiautomator/Selector.js:106 | Corrected, `{text: t}` compiles and matches exactly the nodes whose `text` is t. |
| Comparator.OnlyTextClause | lib/uiautomator/Selector.js:92-106 | `{text: t}` generates the one `text` clause. |
| UiObjects.UiObject.constructor | lib/uiautomator/UiObject.js:15-21 | A missing selector is replaced by a fresh empty one. |
| UiObjects.UiObject.At | lib/uiautomator/UiObject.js:58-63 | `at` throws exactly for a non-number or a negative index. Otherwise the new object's selector is a fresh clone with `instance` set to the index. |
| UiObjects.AtSelectsInstance | lib/uiautomator/UiObject.js:60-61 | The clone gains the instance bit and value, and every other field is as before. |
| UiObjects.UiObject.Child | lib/uiautomator/UiObject.js:28-30 | `child` throws exactly when the query is refused. Otherwise it returns an object with a fresh, empty selector. |
| UiObjects.UiObject.Sibling | lib/uiautomator/UiObject.js:37-39 | `sibling` behaves the same. |
| UiObjects.UiObject.Related | lib/uiautomator/UiObject.js:28-39 | As written, the new object's selector has no fields and no relations. |
| UiObjects.UiObject.RelatedKept | lib/uiautomator/UiObject.js:28-39 | Corrected, the new selector has this selector's fields and relations plus the new relation. |
| UiObjects.Click | lib/uiautomator/UiObject.js:89-91 | `click` sends the selector, plus the action exactly when the action is truthy. |
| UiObjects.ClickAndWait | lib/uiautomator/UiObject.js:97-99 | `clickAndWait` sends `click` with the selector and the timeout. |
| UiObjects.Pinch | lib/uiautomator/UiObject.js:106-121 | Sends the selector, the percent (default 100) and the steps (default 50), and both are truthy. |
| UiObjects.PinchIn | lib/uiautomator/UiObject.js:106-110 | `pinchIn` is `Pinch` under the name `pinchIn`. |
| UiObjects.PinchOut | lib/uiautomator/UiObject.js:117-121 | `pinchOut` is `Pinch` under the name `pinchOut`. |
| UiObjects.Swipe | lib/uiautomator/UiObject.js:130-136 | As written, `swipe` throws exactly when given a real direction. Otherwise it sends `SwipeParams`. |
| UiObjects.SwipeChecked | lib/uiautomator/UiObject.js:130-136 | Corrected, `swipe` throws exactly when the direction is not one of the four. |
| UiObjects.SwipeParams | lib/uiautomator/UiObject.js:134-135 | The steps come right after the direction when `percent == 1`, and the percent then the steps otherwise. |
| UiObjects.SwipeNeverSendsADirection | lib/uiautomator/UiObject.js:130-136 | As written, no sent swipe carries a valid direction. Corrected, every one does. |
| UiObjects.Wait | lib/uiautomator/UiObject.js:142-154 | The wait calls send the selector and the timeout, 3000 by default. |
| UiObjects.IsVertical | lib/uiautomator/UiObject.js:170 | `(direction \|\| 'vertical') == 'vertical'` holds exactly for a falsy direction or the string `vertical`. |
| UiObjects.VerticalIsNoNumber | lib/uiautomator/UiObject.js:170 | The text `vertical` equals no number. |
| UiObjects.BooleanNotRewritten | lib/uiautomator/UiObject.js:157 | The `horizontal` rewrite never touches the boolean the public methods pass. |
| UiObjects.Horizental | lib/uiautomator/UiObject.js:157 | The string `horizontal` becomes `horizental`, and every other direction is kept. |
| UiObjects.Fling | lib/uiautomator/UiObject.js:156-163 | Sends `fling` + action with the selector and the direction. Only a `To...` action also gets maxSwipes (default 1000). |
| UiObjects.Scroll | lib/uiautomator/UiObject.js:205-215 | Sends `scroll` + action with the selector and the direction, then maxSwipes for a `To...` action, then the steps (default 1000). |
| UiObjects.FlingForward | lib/uiautomator/UiObject.js:169-172 | `flingForward` sends the selector and whether the direction is vertical. |
| UiObjects.FlingBackward | lib/uiautomator/UiObject.js:178-181 | `flingBackward` sends the selector and whether the direction is vertical. |
| UiObjects.FlingToBeginning | lib/uiautomator/UiObject.js:188-192 | `flingToBeginning` adds maxSwipes (default 1000). |
| UiObjects.FlingToEnd | lib/uiautomator/UiObject.js:199-203 | `flingToEnd` adds maxSwipes (default 1000). |
| UiObjects.ScrollForward | lib/uiautomator/UiObject.js:224-227 | `scrollForward` sends the selector, whether vertical, and the steps (default 1000). |
| UiObjects.ScrollBackward | lib/uiautomator/UiObject.js:236-239 | `scrollBackward` sends the selector, whether vertical, and the steps (default 1000). |
| UiObjects.ScrollToBeginning | lib/uiautomator/UiObject.js:249-254 | As written, it sends `flingToBeginning` with the steps (default 100) in maxSwipes' place. |
| UiObjects.ScrollToEnd | lib/uiautomator/UiObject.js:264-269 | As written, it sends `flingToEnd` with the steps (default 100) in maxSwipes' place. |
| UiObjects.ScrollTo | lib/uiautomator/UiObject.js:249-269 | The shared body as written: a fling request that carries the steps and drops maxSwipes. |
| UiObjects.ScrollToChecked | lib/uiautomator/UiObject.js:249-269 | Corrected: `scrollTo...` with maxSwipes (default 1000) and then the steps (default 100). |

## Left out

- Sockets, ADB shell and port-forward commands are not modelled: `send`, `start`, `isStarted`, `getFocusedWindowId` and `getProtocolVersion`. `dump` and `findView` get the reply text as a parameter, and their callback and yieldable forms and window-id argument handling are left out.
- The JSON-RPC transport is left out. `getInfo`, `getCount`, `exists` and `getFullInfo` are single RPC or ViewServer calls with nothing to compute, and are not modelled. The other `UiObject` operations yield the request they would send.
- ViewServer.CloseReply: `console.error` on an empty reply is modelled as None (nothing is passed on).
- JavaScript numbers are integers here. Floating point, NaN and Infinity are left out, so `Number()` reads optionally signed decimal digits only, without surrounding white space, exponents or hex. `at` with NaN (which passes its check) is not modelled.
- `RegExp.prototype.test` is a parameter (`test`) of the comparator, not a regular-expression engine.
- A query is an ordered sequence of entries. JavaScript's key order (integer-like keys first) and truthy non-object queries are not modelled.
- `key in fields` also accepts names inherited from `Object.prototype` (`toString` and others), which `set` and `remove` would then store. Only the 25 fields are modelled.
- UiSelector.Selector.Clone: the property-copy loop over `for (key in this)` is modelled as copying the slots. The clone shares the relation selectors, as `concat()` does.
- UiSelector.Selector.Child: the new relation selector is described by `Pushed` (its slots are `Construct`'s), not by deep equality.
- ViewNodes.Tree: `inspect` is modelled on a value tree whose groups and entries are given in key order. `Object.keys` ordering is left out.
- ViewNodes.NormalizeKey: a character is a Unicode scalar value, not a UTF-16 code unit. `charAt(3)` on a key whose fourth unit is half of a surrogate pair is not modelled.
- ViewNodes.GetterKey: `toLowerCase` is modelled for ASCII letters only. Other letters are kept as they are, where JavaScript would lower-case them too.
- ViewNodes.Capitalise: `toUpperCase` is modelled for ASCII letters only, so a group name starting with a non-ASCII letter keeps that letter.
- ViewNodes.ReadValueWithin: the value loop counts Unicode scalar values, where JavaScript counts UTF-16 code units. A value with characters outside the Basic Multilingual Plane is read differently.
- ViewNodes.ReadChars: the same holds for the imperative value loop: `propPart[index++]` reads one UTF-16 code unit, and the model reads one scalar value.
- ViewNodes.ScanEncoded: the encoded length is a count of scalar values, not of UTF-16 code units, so the round trip is stated for that count only.
- ViewNodes.ParseLineRoundTrip: the round trip holds for lengths counted in scalar values. Lengths in UTF-16 code units, as Android writes them, are not modelled.
- ViewServer.MatchesAt: the `.` of the pattern matches one scalar value here. In JavaScript it matches one UTF-16 code unit, so the two differ where a surrogate pair follows `DONE`. `ViewServer.RemoveTerminators` inherits this.
- Comparator.CompileAsWritten: a string value holding a quote, a backslash or a line break can close or change the literal `codeEscape` opens. What `new Function` then makes of the code is not modelled; the outcome is None.
- Comparator.StringValueRefused: stated only for selectors whose string values are plain text, for the same reason.
- `view-node.js`, `device.js`, `Keyboard.js`, `RpcClient.js`, `UiAutomator.js` and the app scripts are not part of this model.

## Findings

| source | as written | input that shows it | evidently intended | confidence | as-written member | corrected member |
|---|---|---|---|---|---|---|
| lib/uiautomator/Selector.js:36 | `'"' + v + '+'` closes a string with `+` | `new Selector({text: 'OK'}).getComparator()` | `'"' + escaped v + '"'` | not executed | Comparator.StringValueUnterminated | Comparator.FixedLiteralCloses |
| lib/uiautomator/UiObject.js:29 | the clone's `child(query)` returns nothing, so the new object gets an empty selector | `obj.child({text: 'a'})` | the new object uses the extended clone | not executed | UiObjects.UiObject.Related | UiObjects.UiObject.RelatedKept |
| lib/uiautomator/UiObject.js:131 | throws when the direction IS one of the four | `obj.swipe('up')` | throw when it is none of them (`== -1`) | not executed | UiObjects.SwipeNeverSendsADirection | UiObjects.SwipeChecked |
| lib/uiautomator/UiObject.js:253 | `scrollToBeginning`/`scrollToEnd` call `__fling`, with steps in maxSwipes' place | `obj.scrollToBeginning()` | call `__scroll` with action, steps and maxSwipes | not executed | UiObjects.ScrollTo | UiObjects.ScrollToChecked |
| lib/views/ViewNode.js:175 | `children.length > 1` | a node with exactly one child | `children.length > 0` | not executed | ViewNodes.OnlyChildDropped | ViewNodes.ChildShown |
| lib/uiautomator/Selector.js:67 | the relation name is pushed before `new Selector(query)` can throw | `selector.child({foo: 1})` | push both or neither | not executed | UiSelector.Selector.PushRelation | UiSelector.Selector.PushRelationChecked |
| lib/views/ViewNode.js:101 | `Boolean('false')` is true | a dump line holding `isClickable=5,false` | read `'true'` as true and `'false'` as false | not executed | ViewNodes.FlagReadsFalseAsTrue | ViewNodes.FlagFixedRoundTrip |
