/**
 * The handful of Python string operations the application relies on:
 * `str.split(sep)`, `sep.join(...)`, `str.lower()`, `str.strip()` and
 * `str.replace(old, new)`, with `Count` to state how many pieces a split gives.
 */
module Text {

  /** Number of occurrences of `c` in `s`. */
  function Count(s: string, c: char): nat {
    if s == [] then 0 else (if s[0] == c then 1 else 0) + Count(s[1..], c)
  }

  /**
   * `s.split(sep)` for a one-character separator: the maximal runs between
   * separators, so there is always one piece more than there are separators.
   */
  function Split(s: string, sep: char): (pieces: seq<string>)
    ensures |pieces| == Count(s, sep) + 1
    ensures forall k :: 0 <= k < |pieces| ==> sep !in pieces[k]
  {
    if s == [] then [""]
    else
      var rest := Split(s[1..], sep);
      if s[0] == sep then [""] + rest
      else [[s[0]] + rest[0]] + rest[1..]
  }

  /** `sep.join(pieces)`. */
  function Join(pieces: seq<string>, sep: string): string {
    if |pieces| == 0 then ""
    else if |pieces| == 1 then pieces[0]
    else pieces[0] + sep + Join(pieces[1..], sep)
  }

  /** Joining the pieces of a split with the same separator gives the string back. */
  lemma {:induction false} JoinSplit(s: string, sep: char)
    ensures Join(Split(s, sep), [sep]) == s
  {
    if s != [] {
      var rest := Split(s[1..], sep);
      JoinSplit(s[1..], sep);
      if s[0] != sep && |rest| >= 2 {
        assert Join(rest, [sep]) == rest[0] + [sep] + Join(rest[1..], [sep]);
      }
    }
  }

  /** Splitting `a + rest`, where `a` holds no separator, glues `a` onto the first piece of `rest`. */
  lemma {:induction false} SplitPrefix(a: string, sep: char, rest: string)
    requires sep !in a
    ensures Split(a + rest, sep) == [a + Split(rest, sep)[0]] + Split(rest, sep)[1..]
  {
    if a != [] {
      assert (a + rest)[1..] == a[1..] + rest;
      SplitPrefix(a[1..], sep, rest);
      assert [a[0]] + (a[1..] + Split(rest, sep)[0]) == a + Split(rest, sep)[0];
    } else {
      var pieces := Split(rest, sep);
      assert a + rest == rest && a + pieces[0] == pieces[0];
      assert pieces == [pieces[0]] + pieces[1..];
    }
  }

  /** Splitting a join of separator-free pieces gives the pieces back. */
  lemma {:induction false} SplitJoin(pieces: seq<string>, sep: char)
    requires |pieces| >= 1
    requires forall k :: 0 <= k < |pieces| ==> sep !in pieces[k]
    ensures Split(Join(pieces, [sep]), sep) == pieces
  {
    if |pieces| == 1 {
      SplitPrefix(pieces[0], sep, "");
      assert pieces[0] + "" == pieces[0];
    } else {
      var tail := Join(pieces[1..], [sep]);
      SplitJoin(pieces[1..], sep);
      assert Join(pieces, [sep]) == pieces[0] + ([sep] + tail);
      SplitPrefix(pieces[0], sep, [sep] + tail);
      assert ([sep] + tail)[1..] == tail;
      assert Split([sep] + tail, sep) == [""] + pieces[1..];
      assert pieces[0] + "" == pieces[0];
      assert pieces == [pieces[0]] + pieces[1..];
    }
  }

  /** Appending one piece to a non-empty join appends the separator and that piece. */
  lemma {:induction false} JoinSnoc(pieces: seq<string>, last: string, sep: string)
    requires |pieces| >= 1
    ensures Join(pieces + [last], sep) == Join(pieces, sep) + sep + last
  {
    if |pieces| >= 2 {
      assert (pieces + [last])[1..] == pieces[1..] + [last];
      JoinSnoc(pieces[1..], last, sep);
    }
  }

  predicate IsUpperAscii(c: char) {
    'A' <= c <= 'Z'
  }

  /**
   * `s.lower()`, restricted to ASCII: capital letters A-Z become a-z and every
   * other character is kept.
   */
  function Lower(s: string): (r: string)
    ensures |r| == |s|
    ensures forall i :: 0 <= i < |r| ==> !IsUpperAscii(r[i])
    ensures forall i :: 0 <= i < |s| && !IsUpperAscii(s[i]) ==> r[i] == s[i]
    ensures forall i :: 0 <= i < |s| && IsUpperAscii(s[i]) ==> r[i] as int == s[i] as int + 32
  {
    if s == [] then ""
    else [if IsUpperAscii(s[0]) then (s[0] as int + 32) as char else s[0]] + Lower(s[1..])
  }

  /** Lower-casing a string without capitals leaves it as it is. */
  lemma LowerOfLowerCase(s: string)
    requires forall i :: 0 <= i < |s| ==> !IsUpperAscii(s[i])
    ensures Lower(s) == s
  {
  }

  /**
   * The characters Python's `str.isspace()` accepts, which `str.strip()`
   * removes: tab to carriage return, the four information separators, space,
   * next line, no-break space and the Unicode space and line/paragraph
   * separators.
   */
  predicate IsSpace(c: char) {
    || '\t' <= c <= '\r'
    || '\U{1C}' <= c <= ' '
    || c == '\U{85}' || c == '\U{A0}' || c == '\U{1680}'
    || '\U{2000}' <= c <= '\U{200A}'
    || c == '\U{2028}' || c == '\U{2029}' || c == '\U{202F}' || c == '\U{205F}' || c == '\U{3000}'
  }

  predicate AllSpace(t: string) {
    forall j :: 0 <= j < |t| ==> IsSpace(t[j])
  }

  /** Lower-casing a concatenation lower-cases each part. */
  lemma {:induction false} LowerAppend(a: string, b: string)
    ensures Lower(a + b) == Lower(a) + Lower(b)
  {
    if a != [] {
      var head := [if IsUpperAscii(a[0]) then (a[0] as int + 32) as char else a[0]];
      calc {
        Lower(a + b);
        head + Lower((a + b)[1..]);
        { assert (a + b)[1..] == a[1..] + b; }
        head + Lower(a[1..] + b);
        { LowerAppend(a[1..], b); }
        head + (Lower(a[1..]) + Lower(b));
      }
    } else {
      assert a + b == b;
    }
  }

  /** Spaces are not letters, so lower-casing keeps them. */
  lemma LowerOfSpaces(s: string)
    requires AllSpace(s)
    ensures Lower(s) == s
  {
    forall i | 0 <= i < |s|
      ensures !IsUpperAscii(s[i])
    {
      assert IsSpace(s[i]);
    }
    LowerOfLowerCase(s);
  }

  /** Lower-casing leaves the spaces around a word as they are. */
  lemma LowerKeepsSpaces(before: string, word: string, after: string)
    requires AllSpace(before) && AllSpace(after)
    ensures Lower(before + word + after) == before + Lower(word) + after
  {
    LowerAppend(before + word, after);
    LowerAppend(before, word);
    LowerOfSpaces(before);
    LowerOfSpaces(after);
  }

  /** `s.lstrip()`. */
  function StripStart(s: string): string {
    if s != [] && IsSpace(s[0]) then StripStart(s[1..]) else s
  }

  /** `s.rstrip()`. */
  function StripEnd(s: string): string {
    if s != [] && IsSpace(s[|s| - 1]) then StripEnd(s[..|s| - 1]) else s
  }

  /** `lstrip` keeps a suffix: what it cuts is all spaces, and what it keeps does not start with one. */
  lemma {:induction false} StripStartCuts(s: string)
    ensures var r := StripStart(s);
            |r| <= |s| && r == s[|s| - |r|..] && AllSpace(s[..|s| - |r|]) && (r == [] || !IsSpace(r[0]))
  {
    if s != [] && IsSpace(s[0]) {
      StripStartCuts(s[1..]);
      var r := StripStart(s);
      assert s[..|s| - |r|] == [s[0]] + s[1..][..|s| - 1 - |r|];
    }
  }

  /** `rstrip` keeps a prefix: what it cuts is all spaces, and what it keeps does not end with one. */
  lemma {:induction false} StripEndCuts(s: string)
    ensures var r := StripEnd(s);
            |r| <= |s| && r == s[..|r|] && AllSpace(s[|r|..]) && (r == [] || !IsSpace(r[|r| - 1]))
  {
    if s != [] && IsSpace(s[|s| - 1]) {
      var init := s[..|s| - 1];
      StripEndCuts(init);
      var r := StripEnd(s);
      assert s[|r|..] == init[|r|..] + [s[|s| - 1]];
    }
  }

  /**
   * `s.strip()`: the slice of `s` left once the spaces at both ends are cut;
   * it neither starts nor ends with a space.
   */
  function Strip(s: string): (r: string)
    ensures exists i, j :: 0 <= i <= j <= |s| && r == s[i..j] && AllSpace(s[..i]) && AllSpace(s[j..])
    ensures r == [] || (!IsSpace(r[0]) && !IsSpace(r[|r| - 1]))
  {
    var t := StripStart(s);
    StripStartCuts(s);
    StripEndCuts(t);
    var r := StripEnd(t);
    var i := |s| - |t|;
    var j := i + |r|;
    assert r == s[i..j] && s[j..] == t[|r|..];
    r
  }

  lemma {:induction false} StripStartAround(before: string, rest: string)
    requires AllSpace(before)
    requires rest != [] && !IsSpace(rest[0])
    ensures StripStart(before + rest) == rest
  {
    if before != [] {
      assert (before + rest)[1..] == before[1..] + rest;
      StripStartAround(before[1..], rest);
    } else {
      assert before + rest == rest;
    }
  }

  lemma {:induction false} StripEndAround(rest: string, after: string)
    requires AllSpace(after)
    requires rest != [] && !IsSpace(rest[|rest| - 1])
    ensures StripEnd(rest + after) == rest
  {
    if after != [] {
      var s := rest + after;
      assert s[..|s| - 1] == rest + after[..|after| - 1];
      StripEndAround(rest, after[..|after| - 1]);
    } else {
      assert rest + after == rest;
    }
  }

  /** Stripping a core that neither starts nor ends with a space, with spaces around it, gives the core back. */
  lemma StripAround(before: string, core: string, after: string)
    requires AllSpace(before) && AllSpace(after)
    requires core != [] && !IsSpace(core[0]) && !IsSpace(core[|core| - 1])
    ensures Strip(before + core + after) == core
  {
    assert before + core + after == before + (core + after);
    StripStartAround(before, core + after);
    StripEndAround(core, after);
  }

  /** `s.replace(target, replacement)` for a one-character `target`: every occurrence is replaced. */
  function Replace(s: string, target: char, replacement: string): (r: string)
    ensures target !in replacement ==> target !in r
    ensures target !in s ==> r == s
  {
    if s == [] then ""
    else (if s[0] == target then replacement else [s[0]]) + Replace(s[1..], target, replacement)
  }

  /** Replacing in a concatenation replaces in each part. */
  lemma {:induction false} ReplaceAppend(a: string, b: string, target: char, replacement: string)
    ensures Replace(a + b, target, replacement) == Replace(a, target, replacement) + Replace(b, target, replacement)
  {
    if a != [] {
      var head := if a[0] == target then replacement else [a[0]];
      calc {
        Replace(a + b, target, replacement);
        head + Replace((a + b)[1..], target, replacement);
        { assert (a + b)[1..] == a[1..] + b; }
        head + Replace(a[1..] + b, target, replacement);
        { ReplaceAppend(a[1..], b, target, replacement); }
        head + (Replace(a[1..], target, replacement) + Replace(b, target, replacement));
      }
    } else {
      assert a + b == b;
    }
  }
}
