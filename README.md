# bianco.css style accessor, modelled in Dafny

`bianco.css` reads, writes and removes inline CSS properties on one DOM
element or on a list of elements. It has three operations:

- `set(els, name, value)` and `set(els, object)` assign values;
- `remove(els, names)` assigns the empty string to each named property;
- `get(els, names)` reads computed values back.

All of them pass every property name through `sanitizeName` first. That
function turns `float` into `cssFloat`, and otherwise rewrites the name once
with the regular expression `/(.+)-(.)/`: group 1 followed by group 2
upper-cased.

The project has three modules:

- `PropertyNames` (`property_names.dfy`) models `sanitizeName`.
  - `Sanitize` is written the way a backtracking engine runs the regular
    expression: the leftmost start position first, then the longest `.+`
    that still lets `-` and one more character follow.
  - JavaScript's `.` does not match the four line terminators (LF, CR,
    U+2028, U+2029), and the model keeps that.
  - Independently of the search, `IsChosenHyphen` says which hyphen the
    rewrite removes, and `SanitizeJoinsChosenHyphen` and `SanitizeUnchanged`
    tie the two together.
- `Styles` (`styles.dfy`) models the accessor.
  - An element is a class whose field `style` is its table of properties.
  - `setStyles` and `set` are methods that update that field in place.
    Their postconditions state each element's new table as the old table
    overlaid with `Overlay(entries)`, the table produced by the assignments
    in entry order.
  - `remove` is a method too. Its postcondition states each element's new
    table as the old table overlaid with `Blanks(names)`, "" at every
    sanitized name. `BlankRecordBlanks` proves that this is the
    `Overlay` of the object `remove` builds and hands to `setStyles`.
  - The object that `remove` builds is modelled as an ordered list of
    entries with distinct keys (`Put`, `BlankRecord`).
  - `get` is a function over the elements' tables.
- `Scenarios` (`scenarios.dfy`) states the repository's test cases.
  - Methods on fresh elements run `set` and `remove` and give what `get`
    (or the style table) yields afterwards.
  - `GetRedTwelve`, `GetEachFromTwo` and `GetBothFromTwo` take elements
    whose tables are given by their preconditions: the tables the test's
    `set` leaves.
  - Small lemmas (`TwoEntries`, `ReducedTwo`, `ReadTwo`, `GetPair`,
    `BlankOne`, `BlankTwo`, `RedTwelveBlanked`, `RedTwelveColorBlanked`)
    compute the tables and readings these methods rely on.

The code differs from the library's own documentation on three points,
and the model follows the code on all of them:

- **Multi-hyphen names.** The comment on `sanitizeName`
  (index.next.js:4-6) promises "the sanitized camel-case version". The
  code, however, joins only at the hyphen that greedy `.+` settles on,
  which is the last one on the first line that has one. So
  `border-top-width` becomes `border-topWidth` (lemma
  `SanitizeBorderTopWidth`), not `borderTopWidth`. `border-topWidth` is
  not a CSS property, so in a browser `set(el, 'border-top-width', v)`
  assigns nothing that takes effect, and `get` of that name reads nothing
  back from the computed style. `SetThenGet` holds for such names only
  because the model stores every assignment (see "## Left out").
- **No result.** The TypeScript declarations (index.d.ts:1-4) give `get`
  the result type `... | null`. The code never returns `null`: with no
  element it returns `undefined` (`result[0]` of an empty array),
  modelled as `Absent`.
- **Result shapes.** The declarations of `get` (index.d.ts:2-4) do not
  match the shapes the code returns (index.next.js:83, 86):
  - for one element and a list of names they declare
    `Record<string, unknown>[]`, but the code returns a single object for
    two or more names and a string for a one-name list;
  - for an array of elements and one name they declare `string[]`, but a
    one-element array gives the single value, because `result[0]` is
    returned whenever `result.length` is not above 1;
  - for an array of elements and a list of names they declare
    `Record<string, unknown>[][]`, but the code returns one object per
    element.

  `Get` (`r.One? <==> |DomToArray(t)| == 1`) and `ReadingOf` follow the
  code.

## Model

| member | source | states |
|---|---|---|
| PropertyNames.UpperCase | index.next.js:9 | `toUpperCase` keeps the length and upper-cases every character. |
| PropertyNames.LineEndStops | index.next.js:9 | A greedy `.+` from position i covers everything up to the next line terminator, and stops only at a line terminator or at the end. |
| PropertyNames.BacktrackGreedy | index.next.js:9 | Backtracking from the end of the line finds a match ending in the longest possible group 1, or proves no match starts at i. |
| PropertyNames.MatchWithinLine | index.next.js:9 | A match starting at i never puts its hyphen beyond i's line. |
| PropertyNames.MatchFromLeftmostLongest | index.next.js:9 | The search returns a real match. No earlier start position matches, and no longer match exists from the chosen start. If it returns nothing, no match exists at all. |
| PropertyNames.LineEnd | index.next.js:9 | Where a greedy `.+` started at i stops, at or after i and within the name; `LineEndStops` pins it to the next line terminator or the end. |
| PropertyNames.Backtrack | index.next.js:9 | The engine's backtracking from the end of the line: any hyphen it returns lies after the start, at or before where it began, and has a character after it; `BacktrackGreedy` shows it is the hyphen of the longest match. |
| PropertyNames.MatchFrom | index.next.js:9 | The engine's search over start positions: any match it returns starts at or after i, has its hyphen after the start and a character after the hyphen; `MatchFromLeftmostLongest` shows it is the leftmost, longest match. |
| PropertyNames.Replacement | index.next.js:9 | The replacer callback's result is group 1 followed by group 2 upper-cased character by character; `ReplacementJoins` shows that splicing it in joins the name at the hyphen. |
| PropertyNames.Sanitize | index.next.js:9 | `float` becomes `cssFloat`. Any other name is either kept or loses exactly one character. |
| PropertyNames.JoinedAt | index.next.js:9 | Removing the hyphen at h and upper-casing the next character keeps the text before and after it, and shortens the name by one. |
| PropertyNames.MatchesAtJoinable | index.next.js:9 | Every match ends at a joinable hyphen, and every joinable hyphen is matched from the character before it. |
| PropertyNames.MatchFromChoosesHyphen | index.next.js:9 | The search finds a match if and only if the name has a joinable hyphen. When it does, the match ends at the chosen hyphen. |
| PropertyNames.JoinableNotFloat | index.next.js:9 | `float` has no hyphen, so the `float` special case and the regular-expression rewrite never overlap. |
| PropertyNames.ChosenHyphenUnique | index.next.js:9 | At most one hyphen is the chosen one. |
| PropertyNames.ReplacementJoins | index.next.js:9 | Replacing the match with group 1 plus group 2 upper-cased joins the name at the hyphen. |
| PropertyNames.SanitizeJoinsChosenHyphen | index.next.js:9 | Any name that has a chosen hyphen is rewritten by removing exactly that hyphen and upper-casing the next character. |
| PropertyNames.ChosenHyphenExists | index.next.js:9 | A name with a joinable hyphen has a chosen hyphen. |
| PropertyNames.SanitizeUnchanged | index.next.js:9 | `sanitizeName` returns its argument unchanged if and only if the name is not `float` and has no joinable hyphen. |
| PropertyNames.SanitizeLastHyphen | index.next.js:9 | On a name without line terminators, the last joinable hyphen is the one removed. |
| PropertyNames.SanitizeWithoutHyphen | index.next.js:9 | A name other than `float` with no hyphen is kept. |
| PropertyNames.SanitizeLastSegment | index.next.js:9 | `prefix-suffix` on one line, with no hyphen in the suffix, becomes the prefix followed by the suffix with its first character upper-cased. |
| PropertyNames.SanitizeColor | test.js:16-17 | `color` is kept. |
| PropertyNames.SanitizeCamelCase | test.js:59 | `fontSize` is kept. |
| PropertyNames.SanitizeEdgeHyphens | index.next.js:9 | A leading or trailing hyphen has nothing on one side, so `-x` and `a-` are kept. |
| PropertyNames.SanitizeFontSize | test.js:29-35 | `font-size` becomes `fontSize`. |
| PropertyNames.SanitizeBorderTopWidth | index.next.js:9 | `border-top-width` becomes `border-topWidth`: only the last hyphen is removed. |
| PropertyNames.SanitizeFirstLine | index.next.js:9 | `.` does not cross a line terminator, so in `a-b\nc-d` only the first line is rewritten. |
| Styles.Element.constructor | test.js:15 | A new element has no inline style. |
| Styles.DomToArray | index.next.js:23 | One element becomes a one-element list and a list is kept as it is, in order; `SetStyles` and `Get` are stated over this list. The same conversion is applied at index.next.js:80. |
| Styles.NameSeq | index.next.js:78 | A single name becomes a one-element list and a list of names is kept; `ReadingOf` and `Remove` are stated over this list. The same conversion is applied at index.next.js:108. |
| Styles.Read | index.next.js:80-82 | The computed value of a property is its value in the table, or "" when the table does not hold it. |
| Styles.Overlay | index.next.js:20-24 | The table made by the assignments holds exactly the sanitized names of the entries. |
| Styles.OverlayLastWins | index.next.js:24 | When several entries sanitize to the same key, the last of them wins. |
| Styles.OverlayOfBlanks | index.next.js:109-111 | Entries that all carry "" blank exactly the keys they name, in any order. |
| Styles.OverlayAppend | index.next.js:24 | One more entry is one more assignment. |
| Styles.AssignEntries | index.next.js:24 | After the inner loop, the element's table is its old table overlaid with the entries, assigned in order. |
| Styles.OverlayTwice | index.next.js:23-25 | Applying the same overlay twice gives the same result as once, so an element listed twice ends the same. |
| Styles.SetStyles | index.next.js:19-27 | Every listed element ends with its old table overlaid with the entries, and the target is returned. |
| Styles.Entries | index.next.js:20-21 | A name and value become the one entry `(name, value)`; an object gives its entries in enumeration order; `Set` overlays exactly these. |
| Styles.Set | index.next.js:52-55 | `set` with a name and value, or with an object, overlays those entries on every element and returns the target. |
| Styles.Put | index.next.js:109 | Assigning a key of a plain object: the keys become the old keys plus the new key, and the pair is present. Every other entry is an old one under another key, and keys stay distinct. |
| Styles.PutNewKey | index.next.js:109 | Assigning a key the object does not hold appends the entry at the end. |
| Styles.PutExistingKey | index.next.js:109 | Assigning a key the object already holds keeps the length and replaces that entry where it stands; every other entry stays in place. |
| Styles.KeysCons | index.next.js:109 | The keys of an entry list with one entry in front are that entry's key plus the rest's keys. |
| Styles.DistinctKeysCons | index.next.js:109 | Putting an entry in front keeps the keys distinct if and only if its key is new. |
| Styles.BlankRecord | index.next.js:108-109 | The object `remove` builds has exactly the given names as keys, once each, every one holding "". |
| Styles.BlankRecordBlanks | index.next.js:107-111 | Overlaying that object blanks exactly the sanitized names. |
| Styles.Remove | index.next.js:107-113 | Every listed element ends with its old table with "" at each sanitized name, and the target is returned. |
| Styles.Reduced | index.next.js:82 | The object `get` builds per element has exactly the requested names as keys, each holding the computed value of its sanitized name. |
| Styles.Join | index.next.js:83 | The comma join a list undergoes when used as a property key: "" for the empty list, the name itself for one name, and the first name followed by a comma for more. |
| Styles.PropertyKey | index.next.js:83 | The key `reduced[names]` looks up: for one name (a string or a one-element list) the name itself, for the empty list ""; `ReadingOf` relies on this to read a one-element list like its name. |
| Styles.ReadingOf | index.next.js:80-84 | For one element: undefined for an empty list; the computed value for one name (a string or a one-element list); an object keyed by the names otherwise. |
| Styles.Get | index.next.js:77-87 | `get` gives undefined for no element, the reading of the only element for one element, and otherwise the list of readings in element order. |
| Styles.SetThenGet | index.next.js:19-27 | After `set`, reading a name back gives the value of the last entry with the same sanitized name. |
| Styles.SetKeepsOtherKeys | index.next.js:24 | Keys that `set` does not write keep their computed value. |
| Styles.RemoveThenGet | index.next.js:107-113 | After `remove`, each removed name reads "", and every other key reads as before. |
| Scenarios.TwoEntries | index.next.js:24 | Two entries are two assignments in order. |
| Scenarios.ReducedTwo | index.next.js:82 | The object read for two names holds both. |
| Scenarios.ReadTwo | index.next.js:80-84 | Reading two distinct names gives an object with both names and their values. |
| Scenarios.GetPair | index.next.js:77-87 | Two elements with the same reading give that reading twice. |
| Scenarios.BlankOne | index.next.js:107-113 | Removing one name blanks its sanitized key. |
| Scenarios.BlankTwo | index.next.js:107-113 | Removing two names blanks both sanitized keys. |
| Scenarios.SetOneProperty | test.js:14-18 | `set(div, 'color', 'red')` leaves `color` reading `red`. |
| Scenarios.SetOnePropertyOnTwo | test.js:20-26 | The same on two elements sets both. |
| Scenarios.FreshRedTwelve | test.js:28-36 | Setting `{color, font-size}` gives the table `color: red, fontSize: 12px`. |
| Scenarios.FreshRedTwelvePair | test.js:38-50 | The same on two distinct elements at once. |
| Scenarios.GetRedTwelve | test.js:52-60 | `get` of `color` gives `red`, of `fontSize` gives `12px`, and of both gives the object keyed by the names as given. |
| Scenarios.GetEachFromTwo | test.js:62-71 | On two elements, `get` gives a list of the two values. |
| Scenarios.GetBothFromTwo | test.js:82-90 | Two names from two elements give a list of two objects. |
| Scenarios.RemoveEachThenGet | test.js:92-101 | Removing `color` and then `font-size` leaves both reading "". |
| Scenarios.RedTwelveColorBlanked | test.js:103-112 | Removing `color` keeps `fontSize`. |
| Scenarios.RemoveColorFromTwo | test.js:103-112 | Removing `color` from two elements makes it read "" on both. |
| Scenarios.RedTwelveBlanked | test.js:114-123 | Removing both names blanks both keys. |
| Scenarios.RemoveListThenGet | test.js:114-123 | Removing a list of names from two elements makes both read "" on both. |
| Scenarios.GetShapes | index.next.js:80-86 | A one-element list reads like the name itself. An empty list reads undefined. An empty element list gives undefined. |

## Left out

- The computed style is not modelled as a separate structure: `getComputedStyle` (the cascade, stylesheets, inheritance and the browser's own normalisation of values) is replaced by the element's own table, with a property the table lacks read as "".
- The browser's handling of invalid property names or values is not modelled. A real `CSSStyleDeclaration` ignores an assignment it does not recognise; the model stores every assignment.
- `domToArray` is an external package and is not part of this model. A target is either one element or a list of elements, and `DomToArray` gives the list.
- Values are strings. The coercion of numbers (`set(img, 'width', 100)`) and of `undefined` to strings is not modelled.
- UpperCase, ToUpper: only the ASCII letters a-z are upper-cased, while JavaScript's `toUpperCase` also maps other letters (`é` to `É`, and `ß` to the two characters `SS`, which would break the "one character shorter" property of `Sanitize`).
- Object key order in `Object.entries` is the order the entries are given in. JavaScript's rule that integer-like keys come first is not modelled.
- Reading, GetResult: `Absent` (no element) and `One(Missing)` (one element, empty list of names) are distinct values in the model, but both stand for JavaScript's `undefined` (index.next.js:83, 86). So `get` returning `undefined` does not mean there was no element; `Get`'s `Absent?` clause speaks of the model's `Absent` only.
- Key order in the object `get` returns is dropped: `Reduced` is a map.
- Arguments that `typeof` classifies as objects without being plain objects or arrays (`null`, a `Map`) are not modelled. `Declaration` and `Names` cover strings, plain objects and arrays.
- The default export object and the TypeScript declarations are not modelled.
- Concurrency and DOM events do not arise and are not modelled.
