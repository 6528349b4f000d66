/**
 * The scenarios of the repository's test suite.  Methods on fresh elements
 * run `set` and `remove` and give what `get` (or the style table) yields
 * afterwards; `GetRedTwelve`, `GetEachFromTwo` and `GetBothFromTwo` take
 * elements whose tables are given by their preconditions, the tables the
 * test's `set` leaves; the small lemmas compute the tables and readings
 * these methods rely on.
 */
module Scenarios {
  import opened PropertyNames
  import opened Styles

  /** The object `{ color: 'red', 'font-size': '12px' }` the scenarios set. */
  function RedTwelve(): Declaration {
    Properties([("color", "red"), ("font-size", "12px")])
  }

  /** The table an element holds after two assignments. */
  lemma TwoEntries(table: map<string, string>, a: string, va: string, b: string, vb: string)
    ensures table + Overlay([(a, va), (b, vb)]) == table[Sanitize(a) := va][Sanitize(b) := vb]
  {
    var es := [(a, va), (b, vb)];
    assert es[..1] == [(a, va)] && es[..1][..0] == [];
  }

  /** The object `get` builds for two names. */
  lemma ReducedTwo(table: map<string, string>, a: string, b: string)
    ensures Reduced(table, [a, b]) == Reduced(table, [a])[b := Read(table, Sanitize(b))]
    ensures Reduced(table, [a]) == map[a := Read(table, Sanitize(a))]
  {
    assert [a, b][..1] == [a] && [a][..0] == [];
  }

  /** Reading two distinct names gives an object keyed by both. */
  lemma ReadTwo(table: map<string, string>, a: string, va: string, b: string, vb: string)
    requires a != b && Read(table, Sanitize(a)) == va && Read(table, Sanitize(b)) == vb
    ensures ReadingOf(table, NameList([a, b])) == Record(map[a := va, b := vb])
  {
    ReducedTwo(table, a, b);
  }

  /** `get` on two elements whose readings agree lists that reading twice. */
  lemma GetPair(div: Element, span: Element, names: Names, reading: Reading)
    requires ReadingOf(div.style, names) == reading && ReadingOf(span.style, names) == reading
    ensures Get(Nodes([div, span]), names) == Many([reading, reading])
  {
    var r := Get(Nodes([div, span]), names);
    assert r.readings[0] == reading && r.readings[1] == reading;
  }

  /** `remove` of one name blanks its sanitized key. */
  lemma BlankOne(table: map<string, string>, n: string)
    ensures table + Blanks([n]) == table[Sanitize(n) := ""]
  {
    assert SanitizedNames([n]) == {Sanitize(n)};
  }

  /** `remove` of two names blanks both sanitized keys. */
  lemma BlankTwo(table: map<string, string>, a: string, b: string)
    ensures table + Blanks([a, b]) == table[Sanitize(a) := ""][Sanitize(b) := ""]
  {
    assert SanitizedNames([a, b]) == {Sanitize(a), Sanitize(b)};
  }

  /** Setting a name and value on one element (test.js:14-19). */
  method SetOneProperty() returns (color: string)
    ensures color == "red"
  {
    SanitizeColor();
    var div := new Element();
    var _ := Set(Node(div), Property("color", "red"));
    color := Read(div.style, "color");
  }

  /** Setting a name and value on two elements at once (test.js:21-26). */
  method SetOnePropertyOnTwo() returns (first: string, second: string)
    ensures first == "red" && second == "red"
  {
    SanitizeColor();
    var div := new Element();
    var span := new Element();
    var _ := Set(Nodes([div, span]), Property("color", "red"));
    first, second := Read(div.style, "color"), Read(span.style, "color");
  }

  /** The table `set(el, RedTwelve())` leaves on a fresh element. */
  function RedTwelveTable(): map<string, string> {
    map["color" := "red"]["fontSize" := "12px"]
  }

  /** `set` of RedTwelve() on a fresh element (test.js:28-36). */
  method FreshRedTwelve() returns (div: Element)
    ensures fresh(div) && div.style == RedTwelveTable()
  {
    SanitizeColor();
    SanitizeFontSize();
    TwoEntries(map[], "color", "red", "font-size", "12px");
    div := new Element();
    var _ := Set(Node(div), RedTwelve());
  }

  /** `set` of RedTwelve() on two fresh elements at once (test.js:38-50). */
  method FreshRedTwelvePair() returns (div: Element, span: Element)
    ensures fresh(div) && fresh(span) && div != span
    ensures div.style == RedTwelveTable() && span.style == RedTwelveTable()
  {
    SanitizeColor();
    SanitizeFontSize();
    TwoEntries(map[], "color", "red", "font-size", "12px");
    div := new Element();
    span := new Element();
    var _ := Set(Nodes([div, span]), RedTwelve());
  }

  /** What `get` reads from one element holding RedTwelve(): each name, and both at once (test.js:52-60, 73-80). */
  method GetRedTwelve(div: Element) returns (color: GetResult, fontSize: GetResult, both: GetResult)
    requires div.style == RedTwelveTable()
    ensures color == One(Text("red")) && fontSize == One(Text("12px"))
    ensures both == One(Record(map["color" := "red", "font-size" := "12px"]))
  {
    SanitizeColor();
    SanitizeCamelCase();
    SanitizeFontSize();
    color := Get(Node(div), Name("color"));
    fontSize := Get(Node(div), Name("fontSize"));
    ReadTwo(div.style, "color", "red", "font-size", "12px");
    both := Get(Node(div), NameList(["color", "font-size"]));
  }

  /** The same on two elements: the results come as lists in element order (test.js:62-71). */
  method GetEachFromTwo(div: Element, span: Element) returns (color: GetResult, fontSize: GetResult)
    requires div.style == RedTwelveTable() && span.style == RedTwelveTable()
    ensures color == Many([Text("red"), Text("red")])
    ensures fontSize == Many([Text("12px"), Text("12px")])
  {
    SanitizeColor();
    SanitizeCamelCase();
    GetPair(div, span, Name("color"), Text("red"));
    GetPair(div, span, Name("fontSize"), Text("12px"));
    color := Get(Nodes([div, span]), Name("color"));
    fontSize := Get(Nodes([div, span]), Name("fontSize"));
  }

  /** Both names from two elements holding the same two values: a list of two objects (test.js:82-90, 114-123). */
  method GetBothFromTwo(div: Element, span: Element, c: string, f: string) returns (both: GetResult)
    requires Read(div.style, "color") == c && Read(div.style, "fontSize") == f
    requires Read(span.style, "color") == c && Read(span.style, "fontSize") == f
    ensures both == Many([Record(map["color" := c, "font-size" := f]), Record(map["color" := c, "font-size" := f])])
  {
    SanitizeColor();
    SanitizeFontSize();
    ReadTwo(div.style, "color", c, "font-size", f);
    ReadTwo(span.style, "color", c, "font-size", f);
    GetPair(div, span, NameList(["color", "font-size"]), Record(map["color" := c, "font-size" := f]));
    both := Get(Nodes([div, span]), NameList(["color", "font-size"]));
  }

  /** Removing one name at a time from one element (test.js:92-101). */
  method RemoveEachThenGet() returns (both: GetResult)
    ensures both == One(Record(map["color" := "", "font-size" := ""]))
  {
    SanitizeColor();
    SanitizeFontSize();
    var div := FreshRedTwelve();
    BlankOne(div.style, "color");
    var _ := Remove(Node(div), Name("color"));
    BlankOne(div.style, "font-size");
    var _ := Remove(Node(div), Name("font-size"));
    ReadTwo(div.style, "color", "", "font-size", "");
    both := Get(Node(div), NameList(["color", "font-size"]));
  }

  /** Blanking both names of RedTwelve() leaves both of its keys holding "". */
  lemma RedTwelveBlanked()
    ensures RedTwelveTable() + Blanks(["color", "font-size"]) == map["color" := "", "fontSize" := ""]
  {
    SanitizeColor();
    SanitizeFontSize();
    BlankTwo(RedTwelveTable(), "color", "font-size");
  }

  /** Blanking `color` in RedTwelve() leaves `fontSize` as it was. */
  lemma RedTwelveColorBlanked()
    ensures RedTwelveTable() + Blanks(["color"]) == map["color" := "", "fontSize" := "12px"]
  {
    SanitizeColor();
    BlankOne(RedTwelveTable(), "color");
  }

  /** Removing one name from two elements (test.js:103-112). */
  method RemoveColorFromTwo() returns (color: GetResult)
    ensures color == Many([Text(""), Text("")])
  {
    var div, span := FreshRedTwelvePair();
    RedTwelveColorBlanked();
    var _ := Remove(Nodes([div, span]), Name("color"));
    SanitizeColor();
    GetPair(div, span, Name("color"), Text(""));
    color := Get(Nodes([div, span]), Name("color"));
  }

  /** Removing a list of names from two elements (test.js:114-123). */
  method RemoveListThenGet() returns (both: GetResult)
    ensures both == Many([Record(map["color" := "", "font-size" := ""]), Record(map["color" := "", "font-size" := ""])])
  {
    var div, span := FreshRedTwelvePair();
    RedTwelveBlanked();
    var _ := Remove(Nodes([div, span]), NameList(["color", "font-size"]));
    both := GetBothFromTwo(div, span, "", "");
  }

  /** A one-element list of names reads like the name itself, an empty list reads undefined, and no element gives no result. */
  method GetShapes() returns (listOfOne: GetResult, noNames: GetResult, noElements: GetResult)
    ensures listOfOne == One(Text("red"))
    ensures noNames == One(Missing)
    ensures noElements == Absent
  {
    SanitizeColor();
    var div := new Element();
    var _ := Set(Node(div), Property("color", "red"));
    listOfOne := Get(Node(div), NameList(["color"]));
    noNames := Get(Node(div), NameList([]));
    noElements := Get(Nodes([]), Name("color"));
  }
}
