/** The few `java.lang.String` operations the request handling relies on:
    `isBlank`, `trim`, `startsWith`, `equalsIgnoreCase` against a constant
    word, and `split(",")` with its removal of trailing empty strings.
 */
module JavaText {

  /** `Character.isWhitespace`: the ASCII separators and controls 9-13 and
      28-32, and the Unicode space, line and paragraph separators other than
      the non-breaking ones (U+00A0, U+2007, U+202F). */
  predicate IsJavaWhitespace(c: char) {
    || ('\t' <= c <= '\r')
    || ('\U{001C}' <= c <= ' ')
    || c == '\U{1680}'
    || ('\U{2000}' <= c <= '\U{2006}')
    || ('\U{2008}' <= c <= '\U{200A}')
    || c == '\U{2028}' || c == '\U{2029}' || c == '\U{205F}' || c == '\U{3000}'
  }

  /** `String.isBlank`: empty, or whitespace only. */
  predicate IsBlank(s: string) {
    forall i :: 0 <= i < |s| ==> IsJavaWhitespace(s[i])
  }

  /** `String.startsWith`. */
  predicate StartsWith(s: string, prefix: string) {
    |prefix| <= |s| && s[..|prefix|] == prefix
  }

  /** Drops the leading characters at or below U+0020, as `trim` does. */
  function StripLeading(s: string): (r: string)
    ensures |r| <= |s| && r == s[|s| - |r|..]
    ensures r == [] || r[0] > ' '
    ensures forall i :: 0 <= i < |s| - |r| ==> s[i] <= ' '
    decreases |s|
  {
    if s != [] && s[0] <= ' ' then StripLeading(s[1..]) else s
  }

  /** Drops the trailing characters at or below U+0020, as `trim` does. */
  function StripTrailing(s: string): (r: string)
    ensures |r| <= |s| && r == s[..|r|]
    ensures r == [] || r[|r| - 1] > ' '
    ensures forall i :: |r| <= i < |s| ==> s[i] <= ' '
    decreases |s|
  {
    if s != [] && s[|s| - 1] <= ' ' then StripTrailing(s[..|s| - 1]) else s
  }

  /** `String.trim`: the longest infix that neither starts nor ends with a
      character at or below U+0020. */
  function Trim(s: string): (r: string)
    ensures |r| <= |s|
    ensures r == [] || (r[0] > ' ' && r[|r| - 1] > ' ')
    ensures r == [] <==> forall i :: 0 <= i < |s| ==> s[i] <= ' '
  {
    var t := StripLeading(s);
    var r := StripTrailing(t);
    assert r != [] ==> r[0] == t[0];
    r
  }

  predicate IsAsciiLetter(c: char) {
    ('a' <= c <= 'z') || ('A' <= c <= 'Z')
  }

  /** The letter `equalsIgnoreCase` treats `c` as when it is compared with
      an ASCII letter: ASCII upper case folds to lower case, and the four
      non-ASCII characters whose upper or lower case is an ASCII letter
      (long s, dotless i, dotted capital I, Kelvin sign) fold onto it. */
  function Fold(c: char): char {
    if 'A' <= c <= 'Z' then (c as int + 32) as char
    else if c == '\U{017F}' then 's'
    else if c == '\U{0131}' || c == '\U{0130}' then 'i'
    else if c == '\U{212A}' then 'k'
    else c
  }

  /** `word.equalsIgnoreCase(s)` for a constant `word` made of ASCII letters. */
  predicate EqualsIgnoreCase(word: string, s: string)
    requires forall i :: 0 <= i < |word| ==> IsAsciiLetter(word[i])
  {
    |word| == |s| && forall i :: 0 <= i < |s| ==> Fold(s[i]) == Fold(word[i])
  }

  /** Every field of `s` between separators, empty ones included: the
      pieces `split` cuts before it drops the trailing empty ones. */
  function Fields(s: string, sep: char): (r: seq<string>)
    ensures |r| >= 1
    ensures forall k :: 0 <= k < |r| ==> sep !in r[k]
    decreases |s|
  {
    if s == [] then [""]
    else
      var rest := Fields(s[1..], sep);
      if s[0] == sep then [""] + rest
      else [[s[0]] + rest[0]] + rest[1..]
  }

  /** Glues fields back together with the separator between them. */
  function Join(fs: seq<string>, sep: char): string
    requires |fs| >= 1
    decreases |fs|
  {
    if |fs| == 1 then fs[0] else fs[0] + [sep] + Join(fs[1..], sep)
  }

  /** The text before the first separator (all of `s` when there is none). */
  function FirstField(s: string, sep: char): (r: string)
    ensures sep !in r
    ensures |r| <= |s| && r == s[..|r|]
    ensures |r| < |s| ==> s[|r|] == sep
    decreases |s|
  {
    if s == [] || s[0] == sep then [] else [s[0]] + FirstField(s[1..], sep)
  }

  /** Removes the empty strings at the end of a field list. */
  function DropTrailingEmpty(fs: seq<string>): (r: seq<string>)
    ensures |r| <= |fs| && r == fs[..|r|]
    ensures r == [] || r[|r| - 1] != ""
    ensures forall k :: |r| <= k < |fs| ==> fs[k] == ""
    decreases |fs|
  {
    if fs != [] && fs[|fs| - 1] == "" then DropTrailingEmpty(fs[..|fs| - 1]) else fs
  }

  /** `s.split(sep)`: the whole string when the separator does not occur,
      otherwise the fields with the trailing empty ones removed. */
  function JavaSplit(s: string, sep: char): seq<string> {
    if sep !in s then [s] else DropTrailingEmpty(Fields(s, sep))
  }

  /** Splitting and joining are inverse: no character is lost or added. */
  lemma {:induction false} JoinFields(s: string, sep: char)
    ensures Join(Fields(s, sep), sep) == s
    decreases |s|
  {
    if s != [] {
      JoinFields(s[1..], sep);
      var rest := Fields(s[1..], sep);
      if s[0] == sep {
        assert ([""] + rest)[1..] == rest;
        assert s == [sep] + s[1..];
      } else {
        var fs := [[s[0]] + rest[0]] + rest[1..];
        if |rest| == 1 {
          assert s == [s[0]] + s[1..];
        } else {
          assert fs[1..] == rest[1..];
          assert Join(rest, sep) == rest[0] + [sep] + Join(rest[1..], sep);
          assert s == [s[0]] + s[1..];
        }
      }
    }
  }

  /** A string without the separator is a single field. */
  lemma {:induction false} FieldsWithoutSeparator(s: string, sep: char)
    requires sep !in s
    ensures Fields(s, sep) == [s]
    decreases |s|
  {
    if s != [] {
      assert sep !in s[1..] by {
        forall i | 0 <= i < |s[1..]| ensures s[1..][i] != sep {
          assert s[1..][i] == s[i + 1];
        }
      }
      FieldsWithoutSeparator(s[1..], sep);
      assert [s[0]] + s[1..] == s;
    }
  }

  /** A string that starts with a separator-free `a` and a separator has `a`
      as its first field, followed by the fields of the rest. */
  lemma {:induction false} FieldsAfterFirst(a: string, sep: char, t: string)
    requires sep !in a
    ensures Fields(a + [sep] + t, sep) == [a] + Fields(t, sep)
    decreases |a|
  {
    var s := a + [sep] + t;
    if a == [] {
      assert s[1..] == t;
    } else {
      assert sep !in a[1..] by {
        forall i | 0 <= i < |a[1..]| ensures a[1..][i] != sep {
          assert a[1..][i] == a[i + 1];
        }
      }
      FieldsAfterFirst(a[1..], sep, t);
      assert s[1..] == a[1..] + [sep] + t;
      assert [a[0]] + a[1..] == a;
    }
  }

  /** The first field is the text before the first separator. */
  lemma {:induction false} FieldsHead(s: string, sep: char)
    ensures Fields(s, sep)[0] == FirstField(s, sep)
    decreases |s|
  {
    if s != [] && s[0] != sep {
      FieldsHead(s[1..], sep);
    }
  }

  /** Every field is empty exactly when the string is made of separators. */
  lemma {:induction false} FieldsAllEmpty(s: string, sep: char)
    ensures (forall k :: 0 <= k < |Fields(s, sep)| ==> Fields(s, sep)[k] == "")
        <==> (forall i :: 0 <= i < |s| ==> s[i] == sep)
    decreases |s|
  {
    if s != [] {
      FieldsAllEmpty(s[1..], sep);
      var rest := Fields(s[1..], sep);
      var fs := Fields(s, sep);
      if s[0] == sep {
        assert fs == [""] + rest;
        assert (forall k :: 0 <= k < |fs| ==> fs[k] == "")
            <==> (forall k :: 0 <= k < |rest| ==> rest[k] == "") by {
          forall k | 0 < k < |fs| ensures fs[k] == rest[k - 1] { }
          forall k | 0 <= k < |rest| ensures rest[k] == fs[k + 1] { }
        }
        assert (forall i :: 0 <= i < |s| ==> s[i] == sep)
            <==> (forall i :: 0 <= i < |s[1..]| ==> s[1..][i] == sep) by {
          forall i | 0 < i < |s| ensures s[i] == s[1..][i - 1] { }
        }
      } else {
        assert fs[0] != "";
      }
    }
  }

  /** `split` yields no element at all exactly when the string is non-empty
      and made of separators only (so `split(",")[0]` throws there). */
  lemma SplitEmptyIffOnlySeparators(s: string, sep: char)
    ensures JavaSplit(s, sep) == [] <==> (s != [] && forall i :: 0 <= i < |s| ==> s[i] == sep)
  {
    var fs := Fields(s, sep);
    FieldsAllEmpty(s, sep);
    if sep in s {
      var r := DropTrailingEmpty(fs);
      if r != [] {
        assert r[|r| - 1] == fs[|r| - 1];
      }
    } else if s != [] {
      assert s[0] != sep;
    }
  }

  /** When `split` yields an element, the first one is the text before the
      first separator. */
  lemma SplitHead(s: string, sep: char)
    requires JavaSplit(s, sep) != []
    ensures JavaSplit(s, sep)[0] == FirstField(s, sep)
  {
    FieldsHead(s, sep);
    if sep !in s {
      FieldsWithoutSeparator(s, sep);
    }
  }

  /** The second element of `split` exists and equals a non-empty `w` exactly
      when the second field does. */
  lemma SplitSecond(s: string, sep: char, w: string)
    requires w != ""
    ensures (|JavaSplit(s, sep)| > 1 && JavaSplit(s, sep)[1] == w)
        <==> (|Fields(s, sep)| > 1 && Fields(s, sep)[1] == w)
  {
    var fs := Fields(s, sep);
    if sep !in s {
      FieldsWithoutSeparator(s, sep);
    } else {
      var r := DropTrailingEmpty(fs);
      if |fs| > 1 && fs[1] == w {
        assert |r| > 1;
      }
    }
  }
}
