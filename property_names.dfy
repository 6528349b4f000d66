/**
 * Normalisation of CSS property names (`sanitizeName`).
 *
 * The source rewrites a name with one non-global replacement of the regular
 * expression /(.+)-(.)/ by group 1 followed by group 2 upper-cased, except
 * that `float` becomes `cssFloat`.  The match is modelled the way a
 * backtracking regular-expression engine finds it: the leftmost start
 * position first, then, from that start, the longest `.+` that still lets
 * `-` and `.` follow.  JavaScript's `.` matches any character except the
 * four line terminators.
 */
module PropertyNames {

  datatype Option<T> = None | Some(value: T)

  /** The characters JavaScript's `.` does not match: LF, CR, LS and PS. */
  predicate IsLineTerminator(c: char) {
    c == '\n' || c == '\r' || c == '\U{2028}' || c == '\U{2029}'
  }

  /** `toUpperCase` on one character; only a-z have an upper-case form here. */
  function ToUpper(c: char): char {
    if 'a' <= c <= 'z' then (c as int - 32) as char else c
  }

  /** `toUpperCase` on a string, character by character. */
  function UpperCase(s: string): (r: string)
    ensures |r| == |s|
    ensures forall k :: 0 <= k < |s| ==> r[k] == ToUpper(s[k])
  {
    if s == [] then [] else [ToUpper(s[0])] + UpperCase(s[1..])
  }

  /** No line terminator in s[a..b]: one `.+` can cover all of it. */
  predicate SameLine(s: string, a: nat, b: nat)
    requires a <= b <= |s|
  {
    forall k :: a <= k < b ==> !IsLineTerminator(s[k])
  }

  /**
   * /(.+)-(.)/ matches s[i..h+2]: group 1 is s[i..h], the hyphen is s[h]
   * and group 2 is s[h+1..h+2].
   */
  predicate MatchesAt(s: string, i: nat, h: nat) {
    i < h && h + 1 < |s| && s[h] == '-' && !IsLineTerminator(s[h + 1]) && SameLine(s, i, h)
  }

  /** Where a greedy `.+` started at i stops: the next line terminator, or the end. */
  function LineEnd(s: string, i: nat): (e: nat)
    requires i <= |s|
    ensures i <= e <= |s|
    decreases |s| - i
  {
    if i == |s| || IsLineTerminator(s[i]) then i else LineEnd(s, i + 1)
  }

  /** `.+` from i covers s[i..LineEnd(s, i)], and what stops it is a line terminator or the end. */
  lemma {:induction false} LineEndStops(s: string, i: nat)
    requires i <= |s|
    ensures SameLine(s, i, LineEnd(s, i))
    ensures LineEnd(s, i) < |s| ==> IsLineTerminator(s[LineEnd(s, i)])
    decreases |s| - i
  {
    if i < |s| && !IsLineTerminator(s[i]) {
      LineEndStops(s, i + 1);
    }
  }

  /**
   * Backtracking of the greedy `.+` started at i: the engine tries the
   * hyphen at j, then j - 1, ..., down to i + 1, and stops at the first that
   * is followed by a character `.` matches.
   */
  function Backtrack(s: string, i: nat, j: nat): (h: Option<nat>)
    requires i < j <= |s|
    ensures h.Some? ==> i < h.value <= j && h.value + 1 < |s|
    decreases j
  {
    if j + 1 < |s| && s[j] == '-' && !IsLineTerminator(s[j + 1]) then Some(j)
    else if j == i + 1 then None
    else Backtrack(s, i, j - 1)
  }

  /** Within one line, backtracking finds the hyphen of the longest match, or reports that there is none. */
  lemma {:induction false} BacktrackGreedy(s: string, i: nat, j: nat)
    requires i < j <= |s| && SameLine(s, i, j)
    ensures Backtrack(s, i, j).Some? ==> MatchesAt(s, i, Backtrack(s, i, j).value)
    ensures Backtrack(s, i, j).Some? ==> forall g: nat :: Backtrack(s, i, j).value < g <= j ==> !MatchesAt(s, i, g)
    ensures Backtrack(s, i, j).None? ==> forall g: nat :: i < g <= j ==> !MatchesAt(s, i, g)
    decreases j
  {
    if !(j + 1 < |s| && s[j] == '-' && !IsLineTerminator(s[j + 1])) && j > i + 1 {
      BacktrackGreedy(s, i, j - 1);
    }
  }

  /** A match started at i never puts its hyphen past the end of i's line. */
  lemma MatchWithinLine(s: string, i: nat, h: nat)
    requires i <= |s| && MatchesAt(s, i, h)
    ensures i < LineEnd(s, i) && h <= LineEnd(s, i)
  {
    LineEndStops(s, i);
    var e := LineEnd(s, i);
    if h > e {
      assert false;
    }
  }

  /**
   * The search of the regular-expression engine from start position i
   * onwards: the first start that matches at all, with the hyphen greedy
   * `.+` settles on.  The result is (start of group 1, position of the hyphen).
   */
  function MatchFrom(s: string, i: nat): (m: Option<(nat, nat)>)
    requires i <= |s|
    ensures m.Some? ==> i <= m.value.0 < m.value.1 && m.value.1 + 1 < |s|
    decreases |s| - i
  {
    if i == |s| then None
    else
      var e := LineEnd(s, i);
      var h := if i < e then Backtrack(s, i, e) else None;
      if h.Some? then Some((i, h.value)) else MatchFrom(s, i + 1)
  }

  /** The search finds the leftmost start that matches, and from it the longest match. */
  lemma {:induction false} MatchFromLeftmostLongest(s: string, i: nat)
    requires i <= |s|
    ensures MatchFrom(s, i).Some? ==> MatchesAt(s, MatchFrom(s, i).value.0, MatchFrom(s, i).value.1)
    ensures MatchFrom(s, i).Some? ==> forall a: nat, g: nat :: i <= a < MatchFrom(s, i).value.0 ==> !MatchesAt(s, a, g)
    ensures MatchFrom(s, i).Some? ==> forall g: nat :: MatchesAt(s, MatchFrom(s, i).value.0, g) ==> g <= MatchFrom(s, i).value.1
    ensures MatchFrom(s, i).None? ==> forall a: nat, g: nat :: i <= a ==> !MatchesAt(s, a, g)
    decreases |s| - i
  {
    if i < |s| {
      var e := LineEnd(s, i);
      LineEndStops(s, i);
      if i < e {
        BacktrackGreedy(s, i, e);
      }
      forall g: nat | MatchesAt(s, i, g) ensures i < e && g <= e {
        MatchWithinLine(s, i, g);
      }
      MatchFromLeftmostLongest(s, i + 1);
    }
  }

  /** The replacer callback: group 1 followed by group 2 upper-cased. */
  function Replacement(m1: string, m2: string): (r: string)
    ensures |r| == |m1| + |m2| && r[..|m1|] == m1
    ensures forall k :: 0 <= k < |m2| ==> r[|m1| + k] == ToUpper(m2[k])
  {
    m1 + UpperCase(m2)
  }

  /** `sanitizeName` (index.next.js:9). */
  function Sanitize(name: string): (r: string)
    ensures name == "float" ==> r == "cssFloat"
    ensures name != "float" ==> r == name || |r| == |name| - 1
  {
    if name == "float" then "cssFloat"
    else
      match MatchFrom(name, 0)
      case None => name
      case Some((i, h)) => name[..i] + Replacement(name[i..h], name[h + 1..h + 2]) + name[h + 2..]
  }

  // ---------------------------------------------------------------------
  // Specification of the rewrite, independent of the search

  /** A hyphen with a character `.` matches immediately before and after it. */
  predicate Joinable(s: string, h: nat) {
    0 < h && h + 1 < |s| && s[h] == '-' && !IsLineTerminator(s[h - 1]) && !IsLineTerminator(s[h + 1])
  }

  /**
   * The hyphen the rewrite removes: a joinable hyphen such that every
   * earlier joinable hyphen is on its line and every later joinable hyphen
   * is on a later line.  On a name without line terminators this is the
   * last joinable hyphen.
   */
  ghost predicate IsChosenHyphen(s: string, h: nat) {
    && Joinable(s, h)
    && (forall g: nat :: g < h && Joinable(s, g) ==> SameLine(s, g, h))
    && (forall g: nat :: h < g && Joinable(s, g) ==> !SameLine(s, h, g))
  }

  /** The name with the hyphen at h removed and the character after it upper-cased. */
  function JoinedAt(s: string, h: nat): (r: string)
    requires h + 1 < |s|
    ensures |r| == |s| - 1
    ensures r[..h] == s[..h] && r[h] == ToUpper(s[h + 1]) && r[h + 1..] == s[h + 2..]
  {
    s[..h] + [ToUpper(s[h + 1])] + s[h + 2..]
  }

  /** Every match ends in a joinable hyphen, and every joinable hyphen is matched from the character before it. */
  lemma MatchesAtJoinable(s: string, i: nat, h: nat)
    ensures MatchesAt(s, i, h) ==> Joinable(s, h)
    ensures Joinable(s, h) ==> MatchesAt(s, h - 1, h)
  {
  }

  /** The search finds something exactly when the name has a joinable hyphen, and then it finds the chosen one. */
  lemma {:induction false} MatchFromChoosesHyphen(s: string)
    ensures MatchFrom(s, 0).None? <==> forall g: nat :: !Joinable(s, g)
    ensures MatchFrom(s, 0).Some? ==> IsChosenHyphen(s, MatchFrom(s, 0).value.1)
  {
    MatchFromLeftmostLongest(s, 0);
    var m := MatchFrom(s, 0);
    if m.None? {
      forall g: nat | Joinable(s, g) ensures false {
        MatchesAtJoinable(s, g - 1, g);
      }
    } else {
      var a, h := m.value.0, m.value.1;
      MatchesAtJoinable(s, a, h);
      forall g: nat | g < h && Joinable(s, g) ensures SameLine(s, g, h) {
        MatchesAtJoinable(s, g - 1, g);
        assert a <= g - 1;
      }
      forall g: nat | h < g && Joinable(s, g) ensures !SameLine(s, h, g) {
        if SameLine(s, h, g) {
          assert MatchesAt(s, a, g);
          assert false;
        }
      }
    }
  }

  /** The chosen hyphen is unique. */
  lemma ChosenHyphenUnique(s: string, h: nat, h': nat)
    requires IsChosenHyphen(s, h) && IsChosenHyphen(s, h')
    ensures h == h'
  {
  }

  /** `float` has no hyphen, so a name with a joinable hyphen is never `float`. */
  lemma JoinableNotFloat(s: string, h: nat)
    requires Joinable(s, h)
    ensures s != "float"
  {
  }

  /** A name with a chosen hyphen loses exactly that hyphen. */
  lemma SanitizeJoinsChosenHyphen(name: string, h: nat)
    requires IsChosenHyphen(name, h)
    ensures Sanitize(name) == JoinedAt(name, h)
  {
    JoinableNotFloat(name, h);
    MatchFromChoosesHyphen(name);
    var m := MatchFrom(name, 0);
    ChosenHyphenUnique(name, h, m.value.1);
    ReplacementJoins(name, m.value.0, h);
  }

  /** Replacing the match s[i..h+2] by the callback's result joins the name at h. */
  lemma ReplacementJoins(s: string, i: nat, h: nat)
    requires i < h && h + 1 < |s|
    ensures s[..i] + Replacement(s[i..h], s[h + 1..h + 2]) + s[h + 2..] == JoinedAt(s, h)
  {
  }

  /** Every name other than `float` with a joinable hyphen has a chosen hyphen. */
  lemma ChosenHyphenExists(name: string, g: nat)
    requires Joinable(name, g)
    ensures exists h :: IsChosenHyphen(name, h)
  {
    MatchFromChoosesHyphen(name);
  }

  /** `sanitizeName` leaves a name unchanged exactly when it is not `float` and has no joinable hyphen. */
  lemma SanitizeUnchanged(name: string)
    ensures Sanitize(name) == name <==> name != "float" && forall g: nat :: !Joinable(name, g)
  {
    MatchFromChoosesHyphen(name);
    if name != "float" && MatchFrom(name, 0).Some? {
      SanitizeJoinsChosenHyphen(name, MatchFrom(name, 0).value.1);
    }
  }

  /** None of the four line terminators occurs in s. */
  predicate OneLine(s: string) {
    '\n' !in s && '\r' !in s && '\U{2028}' !in s && '\U{2029}' !in s
  }

  /** On a one-line name, the last joinable hyphen is the one removed, and the name gets one character shorter. */
  lemma SanitizeLastHyphen(name: string, h: nat)
    requires OneLine(name)
    requires Joinable(name, h) && forall g: nat :: Joinable(name, g) ==> g <= h
    ensures Sanitize(name) == JoinedAt(name, h)
    ensures |Sanitize(name)| == |name| - 1
  {
    forall k | 0 <= k < |name| ensures !IsLineTerminator(name[k]) {
      assert name[k] in name;
    }
    assert IsChosenHyphen(name, h);
    SanitizeJoinsChosenHyphen(name, h);
  }

  /** A name other than `float` without any hyphen is kept as it is. */
  lemma SanitizeWithoutHyphen(name: string)
    requires name != "float" && '-' !in name
    ensures Sanitize(name) == name
  {
    forall k | 0 <= k < |name| ensures name[k] != '-' {
      assert name[k] in name;
    }
    SanitizeUnchanged(name);
  }

  /**
   * A one-line name `prefix-suffix` whose suffix has no hyphen becomes the
   * prefix followed by the suffix with its first character upper-cased.
   */
  lemma SanitizeLastSegment(prefix: string, suffix: string)
    requires prefix != [] && suffix != [] && '-' !in suffix
    requires OneLine(prefix + "-" + suffix)
    ensures Sanitize(prefix + "-" + suffix) == prefix + [ToUpper(suffix[0])] + suffix[1..]
  {
    var name := prefix + "-" + suffix;
    var h := |prefix|;
    forall k | h < k < |name| ensures name[k] != '-' {
      assert name[k] == suffix[k - h - 1];
      assert suffix[k - h - 1] in suffix;
    }
    SanitizeLastHyphen(name, h);
    assert name[..h] == prefix && name[h + 2..] == suffix[1..];
  }

  /** A name without a hyphen is kept as it is (test.js:16-17). */
  lemma SanitizeColor()
    ensures Sanitize("color") == "color"
  {
    SanitizeWithoutHyphen("color");
  }

  /** A camel-case name is kept as it is (test.js:59). */
  lemma SanitizeCamelCase()
    ensures Sanitize("fontSize") == "fontSize"
  {
    SanitizeWithoutHyphen("fontSize");
  }

  /** A hyphen at either end has nothing on one side and is kept. */
  lemma SanitizeEdgeHyphens()
    ensures Sanitize("-x") == "-x" && Sanitize("a-") == "a-"
  {
    forall g: nat ensures !Joinable("-x", g) && !Joinable("a-", g) {
    }
    SanitizeUnchanged("-x");
    SanitizeUnchanged("a-");
  }

  /** The kebab-case name of the tests becomes camel-case (test.js:32-35). */
  lemma SanitizeFontSize()
    ensures Sanitize("font-size") == "fontSize"
  {
    var prefix, suffix := "font", "size";
    assert prefix + "-" + suffix == "font-size";
    assert OneLine(prefix + "-" + suffix) && '-' !in suffix;
    assert prefix + [ToUpper(suffix[0])] + suffix[1..] == "fontSize";
    SanitizeLastSegment(prefix, suffix);
  }

  /** With several hyphens only the last one is removed. */
  lemma SanitizeBorderTopWidth()
    ensures Sanitize("border-top-width") == "border-topWidth"
  {
    var prefix, suffix := "border-top", "width";
    assert prefix + "-" + suffix == "border-top-width";
    assert OneLine(prefix + "-" + suffix) && '-' !in suffix;
    assert prefix + [ToUpper(suffix[0])] + suffix[1..] == "border-topWidth";
    SanitizeLastSegment(prefix, suffix);
  }

  /** `.` stops at a line terminator: the first line with a joinable hyphen is rewritten, the later lines are not. */
  lemma SanitizeFirstLine()
    ensures Sanitize("a-b\nc-d") == "aB\nc-d"
  {
    var s := "a-b\nc-d";
    forall g: nat | 1 < g && Joinable(s, g) ensures !SameLine(s, 1, g) {
      assert IsLineTerminator(s[3]);
    }
    assert IsChosenHyphen(s, 1);
    assert JoinedAt(s, 1) == "aB\nc-d";
    SanitizeJoinsChosenHyphen(s, 1);
  }
}
