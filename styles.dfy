/**
 * The style accessor: `set`, `remove` and `get` over one element or a list
 * of elements.
 *
 * An element is modelled by its style table, a map from property name to
 * string that `set` and `remove` update in place.  The computed style that
 * `get` reads is the same table, with a property that is not in it read as
 * the empty string.
 */
module Styles {
  import opened PropertyNames

  /** A DOM element, reduced to its table of style properties. */
  class Element {
    var style: map<string, string>

    /** `document.createElement`: a fresh element with no style set. */
    constructor ()
      ensures style == map[]
    {
      style := map[];
    }
  }

  /** What the operations accept: one element, or a list of them. */
  datatype Target = Node(element: Element) | Nodes(elements: seq<Element>)

  /** `domToArray`: one element becomes a one-element list, a list stays as it is. */
  function DomToArray(t: Target): (r: seq<Element>)
    ensures t.Node? ==> r == [t.element]
    ensures t.Nodes? ==> r == t.elements
  {
    match t
    case Node(e) => [e]
    case Nodes(es) => es
  }

  /** The second argument of `set`: a name and a value, or an object of properties in enumeration order. */
  datatype Declaration = Property(name: string, value: string) | Properties(entries: seq<(string, string)>)

  /** The second argument of `get` and `remove`: a name, or a list of names. */
  datatype Names = Name(name: string) | NameList(names: seq<string>)

  /** The names as a list: a single name becomes a one-element list. */
  function NameSeq(names: Names): (r: seq<string>)
    ensures names.Name? ==> r == [names.name]
    ensures names.NameList? ==> r == names.names
  {
    match names
    case Name(n) => [n]
    case NameList(ns) => ns
  }

  /** The computed style of a table: a property it does not hold reads as "". */
  function Read(table: map<string, string>, key: string): (v: string)
    ensures key in table ==> v == table[key]
    ensures key !in table ==> v == ""
  {
    if key in table then table[key] else ""
  }

  // ---------------------------------------------------------------------
  // Writing: setStyles, set, remove

  /** The keys a list of entries writes to. */
  function SanitizedKeys(entries: seq<(string, string)>): set<string> {
    set e | e in entries :: Sanitize(e.0)
  }

  /**
   * What the entries, assigned one after the other, put in a table: the
   * table of the assignments `style[sanitizeName(prop)] = value` in entry
   * order, starting from nothing.
   */
  function Overlay(entries: seq<(string, string)>): (o: map<string, string>)
    ensures o.Keys == SanitizedKeys(entries)
  {
    if entries == [] then map[]
    else
      var last := entries[|entries| - 1];
      assert entries == entries[..|entries| - 1] + [last];
      Overlay(entries[..|entries| - 1])[Sanitize(last.0) := last.1]
  }

  /** The later of two entries that sanitize to the same key wins. */
  lemma {:induction false} OverlayLastWins(entries: seq<(string, string)>, j: nat)
    requires j < |entries|
    requires forall k :: j < k < |entries| ==> Sanitize(entries[k].0) != Sanitize(entries[j].0)
    ensures Overlay(entries)[Sanitize(entries[j].0)] == entries[j].1
    decreases |entries|
  {
    if j < |entries| - 1 {
      var prefix := entries[..|entries| - 1];
      assert forall k :: j < k < |prefix| ==> prefix[k] == entries[k];
      OverlayLastWins(prefix, j);
    }
  }

  /** When every entry carries "", the overlay blanks exactly the keys they name, whatever their order. */
  lemma {:induction false} OverlayOfBlanks(entries: seq<(string, string)>)
    requires forall e :: e in entries ==> e.1 == ""
    ensures Overlay(entries) == map k | k in SanitizedKeys(entries) :: ""
  {
    if entries != [] {
      var prefix := entries[..|entries| - 1];
      assert forall e :: e in prefix ==> e in entries;
      OverlayOfBlanks(prefix);
    }
  }

  /** Appending one entry to a list of entries is one more assignment. */
  lemma OverlayAppend(table: map<string, string>, entries: seq<(string, string)>, k: nat)
    requires k < |entries|
    ensures table + Overlay(entries[..k + 1]) == (table + Overlay(entries[..k]))[Sanitize(entries[k].0) := entries[k].1]
  {
    assert entries[..k + 1][..k] == entries[..k];
  }

  /** The inner loop of `setStyles` (index.next.js:24): each entry, in order, assigned to the element under its sanitized name. */
  method AssignEntries(el: Element, entries: seq<(string, string)>)
    modifies el
    ensures el.style == old(el.style) + Overlay(entries)
  {
    var k := 0;
    while k < |entries|
      invariant 0 <= k <= |entries|
      invariant el.style == old(el.style) + Overlay(entries[..k])
    {
      var (prop, value) := entries[k];
      el.style := el.style[Sanitize(prop) := value];
      OverlayAppend(old(el.style), entries, k);
      k := k + 1;
    }
    assert entries[..|entries|] == entries;
  }

  /** Laying the same overlay twice is laying it once, so an element listed twice ends as if listed once. */
  lemma OverlayTwice(table: map<string, string>, o: map<string, string>)
    ensures (table + o) + o == table + o
  {
  }

  /** `setStyles` (index.next.js:19-27): assign every entry to every element, in entry order. */
  method SetStyles(t: Target, entries: seq<(string, string)>) returns (r: Target)
    modifies DomToArray(t)
    ensures r == t
    ensures forall e :: e in DomToArray(t) ==> e.style == old(e.style) + Overlay(entries)
  {
    var els := DomToArray(t);
    ghost var o := Overlay(entries);
    ghost var done: set<Element> := {};
    var i := 0;
    while i < |els|
      invariant 0 <= i <= |els|
      invariant forall k :: 0 <= k < i ==> els[k] in done
      invariant done <= set e | e in els
      invariant forall e :: e in done ==> e.style == old(e.style) + o
      invariant forall e :: e in els && e !in done ==> e.style == old(e.style)
    {
      var el := els[i];
      AssignEntries(el, entries);
      OverlayTwice(old(el.style), o);
      done := done + {el};
      i := i + 1;
    }
    r := t;
  }

  /** The entries `setStyles` assigns: the one name and value, or the object's entries in enumeration order (index.next.js:20-21). */
  function Entries(d: Declaration): (r: seq<(string, string)>)
    ensures d.Property? ==> r == [(d.name, d.value)]
    ensures d.Properties? ==> r == d.entries
  {
    match d
    case Property(n, v) => [(n, v)]
    case Properties(es) => es
  }

  /** `set` (index.next.js:52-55): the elements get the declared values, and the target is returned. */
  method Set(t: Target, d: Declaration) returns (r: Target)
    modifies DomToArray(t)
    ensures r == t
    ensures forall e :: e in DomToArray(t) ==> e.style == old(e.style) + Overlay(Entries(d))
  {
    var _ := SetStyles(t, Entries(d));
    r := t;
  }

  /** The keys of a plain object modelled as its entries in enumeration order. */
  function Keys(record: seq<(string, string)>): set<string> {
    set e | e in record :: e.0
  }

  /** No key occurs twice among the entries of a plain object. */
  predicate DistinctKeys(record: seq<(string, string)>) {
    forall i, j :: 0 <= i < j < |record| ==> record[i].0 != record[j].0
  }

  /**
   * Assigning a property of a plain object: an existing key keeps its
   * place and takes the new value, a new key goes to the end
   * (`PutNewKey`, `PutExistingKey`).
   */
  function Put(record: seq<(string, string)>, key: string, value: string): (r: seq<(string, string)>)
    requires DistinctKeys(record)
    ensures Keys(r) == Keys(record) + {key}
    ensures (key, value) in r
    ensures forall e :: e in r ==> e == (key, value) || (e in record && e.0 != key)
    ensures DistinctKeys(r)
  {
    if record == [] then [(key, value)]
    else if record[0].0 == key then
      KeysCons((key, value), record[1..]);
      KeysCons(record[0], record[1..]);
      DistinctKeysCons(record[0], record[1..]);
      DistinctKeysCons((key, value), record[1..]);
      [(key, value)] + record[1..]
    else
      var rest := Put(record[1..], key, value);
      KeysCons(record[0], record[1..]);
      DistinctKeysCons(record[0], record[1..]);
      KeysCons(record[0], rest);
      DistinctKeysCons(record[0], rest);
      [record[0]] + rest
  }

  /** A new key goes to the end. */
  lemma {:induction false} PutNewKey(record: seq<(string, string)>, key: string, value: string)
    requires DistinctKeys(record) && key !in Keys(record)
    ensures Put(record, key, value) == record + [(key, value)]
  {
    if record != [] {
      KeysCons(record[0], record[1..]);
      DistinctKeysCons(record[0], record[1..]);
      assert record == [record[0]] + record[1..];
      PutNewKey(record[1..], key, value);
    }
  }

  /** An existing key is updated where it stands; every other entry stays in place. */
  lemma {:induction false} PutExistingKey(record: seq<(string, string)>, key: string, value: string)
    requires DistinctKeys(record) && key in Keys(record)
    ensures |Put(record, key, value)| == |record|
    ensures forall i :: 0 <= i < |record| ==>
      Put(record, key, value)[i] == (if record[i].0 == key then (key, value) else record[i])
  {
    KeysCons(record[0], record[1..]);
    DistinctKeysCons(record[0], record[1..]);
    assert record == [record[0]] + record[1..];
    if record[0].0 != key {
      PutExistingKey(record[1..], key, value);
    } else {
      forall i | 0 < i < |record| ensures record[i].0 != key {
        assert record[i] == record[1..][i - 1];
      }
    }
  }

  /** The keys of a list with one entry in front are that entry's key and the rest's keys. */
  lemma KeysCons(e: (string, string), record: seq<(string, string)>)
    ensures Keys([e] + record) == {e.0} + Keys(record)
  {
    assert record == ([e] + record)[1..];
  }

  /** Prepending an entry keeps the keys distinct exactly when its key is new. */
  lemma DistinctKeysCons(e: (string, string), record: seq<(string, string)>)
    ensures DistinctKeys([e] + record) <==> e.0 !in Keys(record) && DistinctKeys(record)
  {
    var s := [e] + record;
    if DistinctKeys(s) {
      forall j | 0 <= j < |record| ensures record[j].0 != e.0 {
        assert s[0] == e && s[j + 1] == record[j];
      }
      forall i, j | 0 <= i < j < |record| ensures record[i].0 != record[j].0 {
        assert s[i + 1] == record[i] && s[j + 1] == record[j];
      }
    }
    if e.0 !in Keys(record) && DistinctKeys(record) {
      forall i, j | 0 <= i < j < |s| ensures s[i].0 != s[j].0 {
        if i == 0 {
          assert s[j] == record[j - 1];
        } else {
          assert s[i] == record[i - 1] && s[j] == record[j - 1];
        }
      }
    }
  }

  /**
   * The object `remove` builds from its names (index.next.js:109): the
   * names folded in order into an empty object, each assigned "", so one
   * entry per distinct name.
   */
  method BlankRecord(names: seq<string>) returns (record: seq<(string, string)>)
    ensures Keys(record) == set n | n in names
    ensures DistinctKeys(record)
    ensures forall e :: e in record ==> e.1 == ""
  {
    record := [];
    for i := 0 to |names|
      invariant Keys(record) == set n | n in names[..i]
      invariant DistinctKeys(record)
      invariant forall e :: e in record ==> e.1 == ""
    {
      assert names[..i + 1] == names[..i] + [names[i]];
      record := Put(record, names[i], "");
    }
    assert names[..|names|] == names;
  }

  /** The sanitized names `remove` clears. */
  function SanitizedNames(names: seq<string>): set<string> {
    set n | n in names :: Sanitize(n)
  }

  /** The table `remove` lays over each element's: "" at every sanitized name. */
  function Blanks(names: seq<string>): map<string, string> {
    map k | k in SanitizedNames(names) :: ""
  }

  /** Laying the object `remove` builds over a table blanks exactly the sanitized names. */
  lemma BlankRecordBlanks(record: seq<(string, string)>, names: seq<string>)
    requires Keys(record) == set n | n in names
    requires forall e :: e in record ==> e.1 == ""
    ensures Overlay(record) == Blanks(names)
  {
    forall n | n in names ensures Sanitize(n) in SanitizedKeys(record) {
      assert n in Keys(record);
      var e :| e in record && e.0 == n;
    }
    forall e | e in record ensures Sanitize(e.0) in SanitizedNames(names) {
      assert e.0 in Keys(record);
    }
    OverlayOfBlanks(record);
  }

  /** `remove` (index.next.js:107-113): every named property reads "" afterwards, and the target is returned. */
  method Remove(t: Target, names: Names) returns (r: Target)
    modifies DomToArray(t)
    ensures r == t
    ensures forall e :: e in DomToArray(t) ==> e.style == old(e.style) + Blanks(NameSeq(names))
  {
    var record := BlankRecord(NameSeq(names));
    BlankRecordBlanks(record, NameSeq(names));
    var _ := SetStyles(t, record);
    r := t;
  }

  // ---------------------------------------------------------------------
  // Reading: get

  /** What `get` yields for one element: undefined, a string, or an object keyed by the names asked for. */
  datatype Reading = Missing | Text(value: string) | Record(fields: map<string, string>)

  /** What `get` returns: undefined for no element, one reading for one element, a list for several. */
  datatype GetResult = Absent | One(reading: Reading) | Many(readings: seq<Reading>)

  /**
   * The object `get` folds from the names (index.next.js:82): keyed by the
   * names as given, holding the computed value of each sanitized name.
   */
  function Reduced(table: map<string, string>, attrs: seq<string>): (r: map<string, string>)
    ensures forall n :: n in r <==> n in attrs
    ensures forall n :: n in attrs ==> r[n] == Read(table, Sanitize(n))
  {
    if attrs == [] then map[]
    else
      var prop := attrs[|attrs| - 1];
      assert attrs == attrs[..|attrs| - 1] + [prop];
      Reduced(table, attrs[..|attrs| - 1])[prop := Read(table, Sanitize(prop))]
  }

  /**
   * `Array.prototype.join(',')`, which is how a list is turned into a
   * property key.  `ReadingOf` looks a list up by key only when it has at
   * most one name, so only the first two cases are ever used; the third is
   * stated for completeness.
   */
  function Join(parts: seq<string>): (r: string)
    ensures parts == [] ==> r == ""
    ensures |parts| == 1 ==> r == parts[0]
    ensures |parts| > 1 ==> |r| > |parts[0]| && r[..|parts[0]| + 1] == parts[0] + ","
  {
    if parts == [] then ""
    else if |parts| == 1 then parts[0]
    else parts[0] + "," + Join(parts[1..])
  }

  /** The property key `reduced[names]` looks up: the name itself, or the list joined with commas. */
  function PropertyKey(names: Names): (r: string)
    ensures |NameSeq(names)| == 1 ==> r == NameSeq(names)[0]
    ensures |NameSeq(names)| == 0 ==> r == ""
  {
    match names
    case Name(n) => n
    case NameList(ns) => Join(ns)
  }

  /**
   * The result for one element (index.next.js:81-83): with several names an
   * object keyed by the names as given; with exactly one name (a string or a
   * one-element list) its computed value; with an empty list undefined.
   */
  function ReadingOf(table: map<string, string>, names: Names): (r: Reading)
    ensures |NameSeq(names)| == 0 ==> r == Missing
    ensures |NameSeq(names)| == 1 ==> r == Text(Read(table, Sanitize(NameSeq(names)[0])))
    ensures |NameSeq(names)| > 1 ==> r.Record? && forall n :: n in r.fields <==> n in NameSeq(names)
    ensures |NameSeq(names)| > 1 ==> forall n :: n in NameSeq(names) ==> r.fields[n] == Read(table, Sanitize(n))
  {
    var attrs := NameSeq(names);
    var reduced := Reduced(table, attrs);
    if |attrs| > 1 then Record(reduced)
    else
      var key := PropertyKey(names);
      if key in reduced then Text(reduced[key]) else Missing
  }

  /** `get` (index.next.js:77-87). */
  function Get(t: Target, names: Names): (r: GetResult)
    reads DomToArray(t)
    ensures r.Absent? <==> |DomToArray(t)| == 0
    ensures r.One? <==> |DomToArray(t)| == 1
    ensures r.One? ==> r.reading == ReadingOf(DomToArray(t)[0].style, names)
    ensures r.Many? ==> |r.readings| == |DomToArray(t)|
    ensures r.Many? ==> forall i :: 0 <= i < |r.readings| ==> r.readings[i] == ReadingOf(DomToArray(t)[i].style, names)
  {
    var els := DomToArray(t);
    var result := seq(|els|, i requires 0 <= i < |els| reads els => ReadingOf(els[i].style, names));
    if |result| > 1 then Many(result)
    else if result == [] then Absent
    else One(result[0])
  }

  // ---------------------------------------------------------------------
  // Round trips, stated on the tables

  /** A name read back after `set` gives the value of the last entry that sanitizes to the same key. */
  lemma SetThenGet(table: map<string, string>, entries: seq<(string, string)>, j: nat, name: string)
    requires j < |entries| && Sanitize(name) == Sanitize(entries[j].0)
    requires forall k :: j < k < |entries| ==> Sanitize(entries[k].0) != Sanitize(name)
    ensures ReadingOf(table + Overlay(entries), Name(name)) == Text(entries[j].1)
  {
    OverlayLastWins(entries, j);
  }

  /** Keys `set` does not write keep their value. */
  lemma SetKeepsOtherKeys(table: map<string, string>, entries: seq<(string, string)>, key: string)
    requires forall e :: e in entries ==> Sanitize(e.0) != key
    ensures Read(table + Overlay(entries), key) == Read(table, key)
  {
  }

  /** After `remove`, each removed name reads "", and every other key reads as before. */
  lemma RemoveThenGet(table: map<string, string>, names: seq<string>, key: string)
    ensures key in SanitizedNames(names) ==> Read(table + Blanks(names), key) == ""
    ensures key !in SanitizedNames(names) ==> Read(table + Blanks(names), key) == Read(table, key)
  {
  }
}
