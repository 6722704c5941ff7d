/** The string operations of Go's strings package and of JavaScript that the modelled code uses. */
module Text {

  // ----- splitting and joining -----

  /** strings.Split with a one-character separator; the result is never empty. */
  function Split(s: string, sep: char): (parts: seq<string>)
    ensures parts != []
    ensures forall i :: 0 <= i < |parts| ==> sep !in parts[i]
  {
    if s == "" then [""]
    else
      var rest := Split(s[1..], sep);
      if s[0] == sep then [""] + rest else [[s[0]] + rest[0]] + rest[1..]
  }

  function Join(parts: seq<string>, sep: string): string {
    if parts == [] then ""
    else if |parts| == 1 then parts[0]
    else parts[0] + sep + Join(parts[1..], sep)
  }

  lemma {:induction false} SplitWithoutSeparator(s: string, sep: char)
    requires sep !in s
    ensures Split(s, sep) == [s]
  {
    if s != "" {
      SplitWithoutSeparator(s[1..], sep);
      assert [s[0]] + s[1..] == s;
    }
  }

  lemma {:induction false} SplitAtSeparator(first: string, sep: char, rest: string)
    requires sep !in first
    ensures Split(first + [sep] + rest, sep) == [first] + Split(rest, sep)
  {
    var s := first + [sep] + rest;
    if first == "" {
      assert s == [sep] + rest;
      assert s[1..] == rest;
    } else {
      SplitAtSeparator(first[1..], sep, rest);
      assert s[1..] == first[1..] + [sep] + rest;
      assert [first[0]] + first[1..] == first;
    }
  }

  /** Splitting what was joined returns the parts, when no part holds the separator. */
  lemma {:induction false} SplitOfJoin(parts: seq<string>, sep: char)
    requires parts != [] && forall i :: 0 <= i < |parts| ==> sep !in parts[i]
    ensures Split(Join(parts, [sep]), sep) == parts
  {
    if |parts| == 1 {
      SplitWithoutSeparator(parts[0], sep);
      assert parts == [parts[0]];
    } else {
      SplitOfJoin(parts[1..], sep);
      SplitAtSeparator(parts[0], sep, Join(parts[1..], [sep]));
      assert parts == [parts[0]] + parts[1..];
    }
  }

  /** Joining what was split returns the string. */
  lemma {:induction false} JoinOfSplit(s: string, sep: char)
    ensures Join(Split(s, sep), [sep]) == s
  {
    if s != "" {
      var rest := Split(s[1..], sep);
      JoinOfSplit(s[1..], sep);
      if s[0] == sep {
        assert ([""] + rest)[1..] == rest;
        assert "" + [sep] + s[1..] == s;
      } else {
        var parts := [[s[0]] + rest[0]] + rest[1..];
        assert parts[1..] == rest[1..];
        if |rest| > 1 {
          assert [s[0]] + rest[0] + [sep] + Join(rest[1..], [sep]) ==
              [s[0]] + (rest[0] + [sep] + Join(rest[1..], [sep]));
        }
        assert s == [s[0]] + s[1..];
      }
    }
  }

  lemma JoinOfThree(a: string, b: string, c: string, sep: string)
    ensures Join([a, b, c], sep) == a + sep + b + sep + c
  {
    assert [a, b, c][1..] == [b, c] && [b, c][1..] == [c];
    assert Join([b, c], sep) == b + sep + c;
    assert a + sep + (b + sep + c) == a + sep + b + sep + c;
  }

  // ----- trimming -----

  function TrimLeft(s: string, space: char -> bool): (r: string)
    ensures |r| <= |s| && (|r| == |s| ==> r == s)
    ensures forall c :: c in r ==> c in s
    ensures r != "" ==> !space(r[0])
  {
    if s != "" && space(s[0]) then TrimLeft(s[1..], space) else s
  }

  function TrimRight(s: string, space: char -> bool): (r: string)
    ensures |r| <= |s| && (|r| == |s| ==> r == s)
    ensures forall c :: c in r ==> c in s
    ensures r != "" ==> r[0] == s[0] && !space(r[|r| - 1])
  {
    if s != "" && space(s[|s| - 1]) then TrimRight(s[..|s| - 1], space) else s
  }

  function Trim(s: string, space: char -> bool): (r: string)
    ensures |r| <= |s| && (|r| == |s| ==> r == s)
    ensures forall c :: c in r ==> c in s
    ensures r != "" ==> !space(r[0]) && !space(r[|r| - 1])
  {
    TrimRight(TrimLeft(s, space), space)
  }

  /** Nothing to trim at either end. */
  predicate IsTrimmed(s: string, space: char -> bool) {
    s == "" || (!space(s[0]) && !space(s[|s| - 1]))
  }

  lemma TrimIsIdentity(s: string, space: char -> bool)
    ensures Trim(s, space) == s <==> IsTrimmed(s, space)
  {
  }

  lemma TrimOfPadded(s: string, space: char -> bool, pad: char)
    requires space(pad)
    ensures Trim([pad] + s, space) == Trim(s, space)
  {
    assert ([pad] + s)[1..] == s;
  }

  /** unicode.IsSpace, the whitespace of Go's strings.TrimSpace. */
  predicate GoSpace(c: char) {
    || c in {' ', '\t', '\n', '\U{000B}', '\U{000C}', '\r', '\U{0085}', '\U{00A0}', '\U{1680}', '\U{2028}', '\U{2029}',
             '\U{202F}', '\U{205F}', '\U{3000}'}
    || '\U{2000}' <= c <= '\U{200A}'
  }

  /** The whitespace of JavaScript's String.prototype.trim: no U+0085, but U+FEFF. */
  predicate JsSpace(c: char) {
    c == '\U{FEFF}' || (GoSpace(c) && c != '\U{0085}')
  }

  function GoTrim(s: string): string { Trim(s, GoSpace) }

  function JsTrim(s: string): string { Trim(s, JsSpace) }

  // ----- letter case -----

  /** Every character mapped on its own, as strings.ToLower does. */
  function Fold(s: string, lower: char -> char): (r: string)
    ensures |r| == |s| && forall i :: 0 <= i < |s| ==> r[i] == lower(s[i])
  {
    if s == "" then "" else [lower(s[0])] + Fold(s[1..], lower)
  }

  /** The mapping of ASCII letters. */
  function LowerChar(c: char): char {
    if 'A' <= c <= 'Z' then c - 'A' + 'a' else c
  }

  function Lower(s: string): string { Fold(s, LowerChar) }
}
