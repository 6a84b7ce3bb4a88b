/**
 * The Python `str` operations the lobby filters use: `strip()`, `lower()`,
 * the substring test `needle in haystack` and `split(sep)`.
 */
module Text {

  /** `str.isspace()` on the Latin-1 range: TAB..CR, the separators FS..US, space, NEL and NBSP. */
  predicate IsSpace(c: char) {
    var n := c as int;
    (9 <= n <= 13) || (28 <= n <= 32) || n == 0x85 || n == 0xA0
  }

  /** `str.lstrip()`: drops the leading whitespace. */
  function TrimStart(s: string): (r: string)
    ensures |r| <= |s| && r == s[|s| - |r|..]
    ensures forall i :: 0 <= i < |s| - |r| ==> IsSpace(s[i])
    ensures r == [] || !IsSpace(r[0])
  {
    if |s| > 0 && IsSpace(s[0]) then TrimStart(s[1..]) else s
  }

  /** `str.rstrip()`: drops the trailing whitespace. */
  function TrimEnd(s: string): (r: string)
    ensures |r| <= |s| && r == s[..|r|]
    ensures forall i :: |r| <= i < |s| ==> IsSpace(s[i])
    ensures r == [] || !IsSpace(r[|r| - 1])
  {
    if |s| > 0 && IsSpace(s[|s| - 1]) then TrimEnd(s[..|s| - 1]) else s
  }

  /** `str.strip()`. */
  function Strip(s: string): string {
    TrimEnd(TrimStart(s))
  }

  /** A stripped string has no whitespace at either end, and it is empty exactly when `s` is all whitespace. */
  lemma StripSpec(s: string)
    ensures var r := Strip(s); r == [] || (!IsSpace(r[0]) && !IsSpace(r[|r| - 1]))
    ensures Strip(s) == [] <==> forall i :: 0 <= i < |s| ==> IsSpace(s[i])
  {
    var t := TrimStart(s);
    var r := TrimEnd(t);
    if r != [] {
      assert r[0] == t[0];
    }
  }

  /** `str.lower()` on one character, restricted to ASCII letters. */
  function LowerChar(c: char): char {
    if 'A' <= c <= 'Z' then (c as int + 32) as char else c
  }

  /** `str.lower()`, restricted to ASCII letters. */
  function Lower(s: string): (r: string)
    ensures |r| == |s|
  {
    seq(|s|, i requires 0 <= i < |s| => LowerChar(s[i]))
  }

  /** `needle` occurs in `hay` starting at position `i`. */
  predicate OccursAt(hay: string, needle: string, i: int) {
    0 <= i && i + |needle| <= |hay| && hay[i..i + |needle|] == needle
  }

  /** Python's substring test `needle in hay`; the empty needle occurs everywhere. */
  function Contains(hay: string, needle: string): bool {
    if |needle| <= |hay| && hay[..|needle|] == needle then true
    else if |hay| == 0 then false
    else Contains(hay[1..], needle)
  }

  /** The substring test holds exactly when `needle` occurs at some position of `hay`. */
  lemma {:induction false} ContainsIffOccurs(hay: string, needle: string)
    ensures Contains(hay, needle) <==> exists i :: OccursAt(hay, needle, i)
  {
    if |needle| <= |hay| && hay[..|needle|] == needle {
      assert OccursAt(hay, needle, 0);
    } else if |hay| == 0 {
    } else {
      ContainsIffOccurs(hay[1..], needle);
      if exists i :: OccursAt(hay[1..], needle, i) {
        var i :| OccursAt(hay[1..], needle, i);
        assert hay[i + 1..i + 1 + |needle|] == hay[1..][i..i + |needle|];
        assert OccursAt(hay, needle, i + 1);
      }
      if exists i :: OccursAt(hay, needle, i) {
        var i :| OccursAt(hay, needle, i);
        assert hay[1..][i - 1..i - 1 + |needle|] == hay[i..i + |needle|];
        assert OccursAt(hay[1..], needle, i - 1);
      }
    }
  }

  /** Every string contains the empty string. */
  lemma ContainsEmpty(hay: string)
    ensures Contains(hay, "")
  {
    assert hay[..0] == "";
  }

  /** Python's `s.split(sep)` for a one-character separator: always at least one part, none containing `sep`. */
  function Split(s: string, sep: char): (parts: seq<string>)
    ensures |parts| >= 1
    ensures forall i :: 0 <= i < |parts| ==> sep !in parts[i]
  {
    if |s| == 0 then [""]
    else
      var rest := Split(s[1..], sep);
      if s[0] == sep then [""] + rest
      else [[s[0]] + rest[0]] + rest[1..]
  }

  /** Python's `sep.join(parts)`. */
  function Join(parts: seq<string>, sep: char): string
    requires |parts| >= 1
  {
    if |parts| == 1 then parts[0] else parts[0] + [sep] + Join(parts[1..], sep)
  }

  /** Splitting and joining with the same separator gives back the original string. */
  lemma {:induction false} JoinSplit(s: string, sep: char)
    ensures Join(Split(s, sep), sep) == s
  {
    if |s| > 0 {
      var rest := Split(s[1..], sep);
      JoinSplit(s[1..], sep);
      if s[0] == sep {
        assert Split(s, sep) == [""] + rest;
        assert ([""] + rest)[1..] == rest;
      } else {
        var parts := [[s[0]] + rest[0]] + rest[1..];
        assert Split(s, sep) == parts;
        if |rest| == 1 {
          assert Join(parts, sep) == [s[0]] + rest[0];
        } else {
          assert parts[1..] == rest[1..];
          assert Join(parts, sep) == [s[0]] + rest[0] + [sep] + Join(rest[1..], sep);
        }
      }
    }
  }

  /** Every character of every part of a split is a character of the string. */
  lemma {:induction false} SplitPartsFrom(s: string, sep: char)
    ensures forall p, c :: p in Split(s, sep) && c in p ==> c in s
  {
    if |s| > 0 {
      SplitPartsFrom(s[1..], sep);
    }
  }

  /** A separator-free prefix extends the first part of a split. */
  lemma {:induction false} SplitPrefix(w: string, s: string, sep: char)
    requires sep !in w
    ensures Split(w + s, sep) == [w + Split(s, sep)[0]] + Split(s, sep)[1..]
    decreases |w|
  {
    if |w| > 0 {
      assert (w + s)[0] == w[0] && w[0] != sep;
      assert (w + s)[1..] == w[1..] + s;
      SplitPrefix(w[1..], s, sep);
      var r := Split(w[1..] + s, sep);
      assert Split(w + s, sep) == [[w[0]] + r[0]] + r[1..];
      var t := Split(s, sep);
      assert r[0] == w[1..] + t[0] && r[1..] == t[1..];
      assert w == [w[0]] + w[1..];
      assert [w[0]] + (w[1..] + t[0]) == w + t[0];
    } else {
      var t := Split(s, sep);
      assert w + s == s && w + t[0] == t[0];
      assert t == [t[0]] + t[1..];
    }
  }

  /** Splitting undoes joining parts that do not contain the separator. */
  lemma {:induction false} SplitJoin(parts: seq<string>, sep: char)
    requires |parts| >= 1
    requires forall i :: 0 <= i < |parts| ==> sep !in parts[i]
    ensures Split(Join(parts, sep), sep) == parts
    decreases |parts|
  {
    if |parts| == 1 {
      SplitPrefix(parts[0], "", sep);
      assert parts[0] + "" == parts[0];
    } else {
      var tail := parts[1..];
      forall i | 0 <= i < |tail|
        ensures sep !in tail[i]
      {
        assert tail[i] == parts[i + 1];
      }
      SplitJoin(tail, sep);
      var rest := [sep] + Join(tail, sep);
      assert parts[0] + [sep] + Join(tail, sep) == parts[0] + rest;
      SplitPrefix(parts[0], rest, sep);
      assert rest[0] == sep && rest[1..] == Join(tail, sep);
      assert Split(rest, sep) == [""] + tail;
      assert parts[0] + "" == parts[0];
      assert parts == [parts[0]] + tail;
    }
  }
}
