/**
 * The string operations the parser, the scheduler and the output generator
 * apply to cell text and ids: Python's str.strip(), str.upper(), str.lower(),
 * str.split(sep), `in` on strings, str.startswith, str(int) and int(str).
 */
module Text {
  import opened Wrappers

  /** Python's str.isspace() for one character. */
  predicate IsSpace(c: char)
  {
    var n := c as int;
    (9 <= n <= 13) || (28 <= n <= 32) || n == 0x85 || n == 0xA0 || n == 0x1680 ||
    (0x2000 <= n <= 0x200A) || n == 0x2028 || n == 0x2029 || n == 0x202F || n == 0x205F || n == 0x3000
  }

  predicate AllSpace(s: string)
  {
    forall i :: 0 <= i < |s| ==> IsSpace(s[i])
  }

  /**
   * Python's str.strip(): leading and trailing whitespace removed. Cutting one
   * end first or the other gives the same result, so the ends are taken in
   * whichever order the recursion meets them.
   */
  function Strip(s: string): (r: string)
    ensures Trimmed(r)
    ensures |r| <= |s|
    decreases |s|
  {
    if s != [] && IsSpace(s[0]) then Strip(s[1..])
    else if s != [] && IsSpace(s[|s| - 1]) then Strip(s[..|s| - 1])
    else s
  }

  /** The length of the leading whitespace run of s. */
  function Lead(s: string): (n: nat)
    ensures n <= |s|
  {
    if s != [] && IsSpace(s[0]) then 1 + Lead(s[1..]) else 0
  }

  /** A string with no whitespace at either end. */
  predicate Trimmed(s: string)
  {
    s == [] || (!IsSpace(s[0]) && !IsSpace(s[|s| - 1]))
  }

  /** Strip returns a slice of s with only whitespace cut away on either side. */
  lemma {:induction false} StripIsSlice(s: string)
    ensures var r := Strip(s);
      && Lead(s) + |r| <= |s| && r == s[Lead(s)..Lead(s) + |r|]
      && AllSpace(s[..Lead(s)]) && AllSpace(s[Lead(s) + |r|..])
    decreases |s|
  {
    if s != [] && IsSpace(s[0]) {
      StripIsSlice(s[1..]);
      SliceAfterLeadingSpace(s, Strip(s[1..]), Lead(s[1..]));
    } else if s != [] && IsSpace(s[|s| - 1]) {
      var t := s[..|s| - 1];
      StripIsSlice(t);
      assert Lead(t) == 0 && Lead(s) == 0;
      SliceBeforeTrailingSpace(s, Strip(t));
    }
  }

  lemma SliceAfterLeadingSpace(s: string, r: string, l: nat)
    requires s != [] && IsSpace(s[0])
    requires l + |r| <= |s| - 1 && r == s[1..][l..l + |r|]
    requires AllSpace(s[1..][..l]) && AllSpace(s[1..][l + |r|..])
    ensures r == s[1 + l..1 + l + |r|] && AllSpace(s[..1 + l]) && AllSpace(s[1 + l + |r|..])
  {
    var t := s[1..];
    forall i | 0 <= i < |r| ensures r[i] == s[1 + l + i] {
      assert r[i] == t[l..l + |r|][i];
    }
    forall i | 0 <= i < 1 + l ensures IsSpace(s[i]) {
      if i > 0 {
        assert s[i] == t[..l][i - 1];
      }
    }
    forall i | 1 + l + |r| <= i < |s| ensures IsSpace(s[i]) {
      assert s[i] == t[l + |r|..][i - 1 - l - |r|];
    }
  }

  lemma SliceBeforeTrailingSpace(s: string, r: string)
    requires s != [] && IsSpace(s[|s| - 1])
    requires |r| <= |s| - 1 && r == s[..|s| - 1][0..|r|] && AllSpace(s[..|s| - 1][|r|..])
    ensures r == s[0..|r|] && AllSpace(s[..0]) && AllSpace(s[|r|..])
  {
    var t := s[..|s| - 1];
    forall i | 0 <= i < |r| ensures r[i] == s[i] {
      assert r[i] == t[0..|r|][i];
    }
    forall i | |r| <= i < |s| ensures IsSpace(s[i]) {
      if i < |s| - 1 {
        assert s[i] == t[|r|..][i - |r|];
      }
    }
  }

  lemma StripTrimmed(s: string)
    requires Trimmed(s)
    ensures Strip(s) == s
  {
  }

  lemma StripEmptyIffAllSpace(s: string)
    ensures Strip(s) == [] <==> AllSpace(s)
  {
    if AllSpace(s) {
      StripOfAllSpace(s);
    } else {
      var k :| 0 <= k < |s| && !IsSpace(s[k]);
      StripKeepsNonSpace(s, k);
    }
  }

  lemma {:induction false} StripOfAllSpace(s: string)
    requires AllSpace(s)
    ensures Strip(s) == []
    decreases |s|
  {
    if s != [] {
      StripOfAllSpace(s[1..]);
    }
  }

  lemma {:induction false} StripKeepsNonSpace(s: string, k: nat)
    requires k < |s| && !IsSpace(s[k])
    ensures Strip(s) != []
    decreases |s|
  {
    if IsSpace(s[0]) {
      StripKeepsNonSpace(s[1..], k - 1);
    } else if IsSpace(s[|s| - 1]) {
      StripKeepsNonSpace(s[..|s| - 1], k);
    }
  }

  lemma StripIdempotent(s: string)
    ensures Strip(Strip(s)) == Strip(s)
  {
    StripTrimmed(Strip(s));
  }

  /** The upper-case letter of an ASCII lower-case letter; any other character unchanged. */
  function UpperChar(c: char): (u: char)
    ensures 'a' <= c <= 'z' ==> 'A' <= u <= 'Z' && u as int - 'A' as int == c as int - 'a' as int
    ensures !('a' <= c <= 'z') ==> u == c
  {
    if 'a' <= c <= 'z' then (c as int - 32) as char else c
  }

  /** The lower-case letter of an ASCII upper-case letter; any other character unchanged. */
  function LowerChar(c: char): (l: char)
    ensures 'A' <= c <= 'Z' ==> 'a' <= l <= 'z' && l as int - 'a' as int == c as int - 'A' as int
    ensures !('A' <= c <= 'Z') ==> l == c
  {
    if 'A' <= c <= 'Z' then (c as int + 32) as char else c
  }

  /**
   * str.upper() on the ASCII letters: each character mapped on its own, so no
   * lower-case letter is left and every other character is kept.
   */
  function Upper(s: string): (r: string)
    ensures |r| == |s|
    ensures forall i :: 0 <= i < |r| ==> r[i] == UpperChar(s[i])
    ensures forall i :: 0 <= i < |r| ==> !('a' <= r[i] <= 'z')
    ensures forall i :: 0 <= i < |r| && !('a' <= s[i] <= 'z') ==> r[i] == s[i]
  {
    seq(|s|, i requires 0 <= i < |s| => UpperChar(s[i]))
  }

  /**
   * str.lower() on the ASCII letters: each character mapped on its own, so no
   * upper-case letter is left and every other character is kept.
   */
  function Lower(s: string): (r: string)
    ensures |r| == |s|
    ensures forall i :: 0 <= i < |r| ==> r[i] == LowerChar(s[i])
    ensures forall i :: 0 <= i < |r| ==> !('A' <= r[i] <= 'Z')
    ensures forall i :: 0 <= i < |r| && !('A' <= s[i] <= 'Z') ==> r[i] == s[i]
  {
    seq(|s|, i requires 0 <= i < |s| => LowerChar(s[i]))
  }

  lemma UpperTrimmed(s: string)
    requires Trimmed(s)
    ensures Trimmed(Upper(s))
  {
  }

  lemma LowerTrimmed(s: string)
    requires Trimmed(s)
    ensures Trimmed(Lower(s))
  {
  }

  lemma UpperIdempotent(s: string)
    ensures Upper(Upper(s)) == Upper(s)
  {
  }

  predicate StartsWith(s: string, prefix: string)
  {
    |prefix| <= |s| && s[..|prefix|] == prefix
  }

  /** Python's `needle in hay` for strings. */
  predicate OccursAt(hay: string, needle: string, i: int)
  {
    0 <= i <= |hay| - |needle| && hay[i..i + |needle|] == needle
  }

  function Contains(hay: string, needle: string): (b: bool)
    ensures b <==> exists i :: OccursAt(hay, needle, i)
  {
    if StartsWith(hay, needle) then
      assert OccursAt(hay, needle, 0);
      true
    else if hay == [] then
      false
    else
      var b := Contains(hay[1..], needle);
      assert forall i :: OccursAt(hay[1..], needle, i) <==> OccursAt(hay, needle, i + 1) by {
        forall i ensures OccursAt(hay[1..], needle, i) <==> OccursAt(hay, needle, i + 1) {
          if 0 <= i <= |hay| - 1 - |needle| {
            assert hay[1..][i..i + |needle|] == hay[i + 1..i + 1 + |needle|];
          }
        }
      }
      assert !OccursAt(hay, needle, 0);
      assert b ==> exists i :: OccursAt(hay, needle, i) by {
        if b {
          var i :| OccursAt(hay[1..], needle, i);
          assert OccursAt(hay, needle, i + 1);
        }
      }
      assert (exists i :: OccursAt(hay, needle, i)) ==> b by {
        if exists i :: OccursAt(hay, needle, i) {
          var i :| OccursAt(hay, needle, i);
          assert i != 0;
          assert OccursAt(hay[1..], needle, i - 1);
        }
      }
      b
  }

  /** The inverse of Split: the parts glued together with the separator. */
  function Join(parts: seq<string>, sep: char): string
  {
    if parts == [] then [] else if |parts| == 1 then parts[0] else parts[0] + [sep] + Join(parts[1..], sep)
  }

  /** Python's s.split(sep) for a one-character separator: at least one part, none holding sep. */
  function Split(s: string, sep: char): (parts: seq<string>)
    ensures |parts| >= 1
    ensures forall k :: 0 <= k < |parts| ==> sep !in parts[k]
    ensures Join(parts, sep) == s
  {
    if s == [] then [[]]
    else
      var rest := Split(s[1..], sep);
      if s[0] == sep then
        assert Join([[]] + rest, sep) == [] + [sep] + Join(rest, sep);
        [[]] + rest
      else
        var parts := [[s[0]] + rest[0]] + rest[1..];
        assert parts[1..] == rest[1..];
        parts
  }

  /** Split undoes Join: a list of separator-free parts is recovered exactly. */
  lemma {:induction false} SplitJoin(parts: seq<string>, sep: char)
    requires |parts| >= 1
    requires forall k :: 0 <= k < |parts| ==> sep !in parts[k]
    ensures Split(Join(parts, sep), sep) == parts
    decreases |Join(parts, sep)|
  {
    var s := Join(parts, sep);
    if |parts| == 1 {
      SplitNoSep(parts[0], sep);
    } else if parts[0] == [] {
      assert s == [sep] + Join(parts[1..], sep);
      assert s[1..] == Join(parts[1..], sep);
      SplitJoin(parts[1..], sep);
    } else {
      var p0 := parts[0];
      var shorter := [p0[1..]] + parts[1..];
      assert shorter[1..] == parts[1..];
      assert Join(shorter, sep) == p0[1..] + [sep] + Join(parts[1..], sep);
      assert s == [p0[0]] + Join(shorter, sep);
      assert s[1..] == Join(shorter, sep);
      assert p0[0] != sep by { assert p0[0] == parts[0][0]; }
      SplitJoin(shorter, sep);
      assert [p0[0]] + p0[1..] == p0;
    }
  }

  lemma {:induction false} SplitNoSep(s: string, sep: char)
    requires sep !in s
    ensures Split(s, sep) == [s]
  {
    if s != [] {
      SplitNoSep(s[1..], sep);
      assert [s[0]] + s[1..] == s;
    }
  }

  /** `(a + sep + b).split(sep)[0] == a` for a head `a` without the separator, whatever the tail holds. */
  lemma {:induction false} SplitHead(a: string, b: string, sep: char)
    requires sep !in a
    ensures Split(a + [sep] + b, sep)[0] == a
  {
    var s := a + [sep] + b;
    if a != [] {
      assert s[1..] == a[1..] + [sep] + b;
      SplitHead(a[1..], b, sep);
      assert [a[0]] + a[1..] == a;
    }
  }

  /** Strip every part and drop the ones that become empty. */
  function CleanParts(parts: seq<string>): (r: seq<string>)
    ensures forall k :: 0 <= k < |r| ==> r[k] != [] && Trimmed(r[k])
  {
    if parts == [] then []
    else
      var rest := CleanParts(parts[1..]);
      var p := Strip(parts[0]);
      if p == [] then rest else [p] + rest
  }

  lemma {:induction false} StripKeepsOut(s: string, c: char)
    requires c !in s
    ensures c !in Strip(s)
    decreases |s|
  {
    if s != [] && IsSpace(s[0]) {
      StripKeepsOut(s[1..], c);
    } else if s != [] && IsSpace(s[|s| - 1]) {
      StripKeepsOut(s[..|s| - 1], c);
    }
  }

  /** A character absent from every part is absent from every cleaned part. */
  lemma {:induction false} CleanPartsKeepOut(parts: seq<string>, c: char)
    requires forall j :: 0 <= j < |parts| ==> c !in parts[j]
    ensures forall k :: 0 <= k < |CleanParts(parts)| ==> c !in CleanParts(parts)[k]
  {
    if parts != [] {
      CleanPartsKeepOut(parts[1..], c);
      StripKeepsOut(parts[0], c);
    }
  }

  /**
   * The comma-list tokeniser of the parser: `[c.strip() for c in s.strip().split(',') if c.strip()]`.
   * Every token is non-empty, has no surrounding whitespace and no comma.
   */
  function Tokens(s: string): (r: seq<string>)
    ensures forall k :: 0 <= k < |r| ==> r[k] != [] && Trimmed(r[k]) && ',' !in r[k]
  {
    var parts := Split(Strip(s), ',');
    CleanPartsKeepOut(parts, ',');
    CleanParts(parts)
  }

  lemma {:induction false} CleanTrimmedParts(parts: seq<string>)
    requires forall k :: 0 <= k < |parts| ==> parts[k] != [] && Trimmed(parts[k])
    ensures CleanParts(parts) == parts
  {
    if parts != [] {
      StripTrimmed(parts[0]);
      CleanTrimmedParts(parts[1..]);
    }
  }

  lemma {:induction false} JoinStartsAndEnds(items: seq<string>, sep: char)
    requires |items| >= 1 && forall k :: 0 <= k < |items| ==> items[k] != []
    ensures var s := Join(items, sep); |s| > 0 && s[0] == items[0][0] && s[|s| - 1] == items[|items| - 1][|items[|items| - 1]| - 1]
  {
    if |items| > 1 {
      JoinStartsAndEnds(items[1..], sep);
    }
  }

  lemma TokensOfEmpty()
    ensures Tokens([]) == []
  {
    assert Split([], ',') == [[]];
    assert Strip([]) == [];
  }

  /** Joining clean non-empty items leaves nothing to strip. */
  lemma JoinTrimmed(items: seq<string>, sep: char)
    requires |items| >= 1 && forall k :: 0 <= k < |items| ==> items[k] != [] && Trimmed(items[k])
    ensures Trimmed(Join(items, sep))
  {
    JoinStartsAndEnds(items, sep);
  }

  /** Tokens inverts the comma join of clean items: order and content are kept exactly. */
  lemma TokensOfJoin(items: seq<string>)
    requires forall k :: 0 <= k < |items| ==> items[k] != [] && Trimmed(items[k]) && ',' !in items[k]
    ensures Tokens(Join(items, ',')) == items
  {
    if items == [] {
      TokensOfEmpty();
    } else {
      JoinTrimmed(items, ',');
      StripTrimmed(Join(items, ','));
      SplitJoin(items, ',');
      CleanTrimmedParts(items);
    }
  }

  function DigitChar(d: nat): char
    requires d < 10
  {
    ('0' as int + d) as char
  }

  /** str(n) for a natural number: its decimal digits, most significant first. */
  function NatToString(n: nat): (s: string)
    ensures |s| >= 1
    ensures forall k :: 0 <= k < |s| ==> '0' <= s[k] <= '9'
    decreases n
  {
    if n < 10 then [DigitChar(n)] else NatToString(n / 10) + [DigitChar(n % 10)]
  }

  /** The value of a non-empty string of decimal digits. */
  function DigitsValue(s: string): nat
    requires forall k :: 0 <= k < |s| ==> '0' <= s[k] <= '9'
  {
    if s == [] then 0 else DigitsValue(s[..|s| - 1]) * 10 + (s[|s| - 1] as int - '0' as int)
  }

  predicate IsDigits(s: string)
  {
    |s| >= 1 && forall k :: 0 <= k < |s| ==> '0' <= s[k] <= '9'
  }

  /** Python's int(text) on a decimal string: surrounding whitespace, an optional sign, then digits. */
  function ParseInt(text: string): (r: Option<int>)
    ensures r.Some? ==> Strip(text) != []
  {
    ParseSigned(Strip(text))
  }

  /** An optional sign, then digits; anything else is not a number. */
  function ParseSigned(t: string): (r: Option<int>)
    ensures r.Some? ==> t != []
  {
    if t == [] then None
    else if (t[0] == '-' || t[0] == '+') && IsDigits(t[1..]) then
      var v: int := DigitsValue(t[1..]);
      Some(if t[0] == '-' then -v else v)
    else if IsDigits(t) then Some(DigitsValue(t))
    else None
  }

  lemma {:induction false} DigitsValueOfNat(n: nat)
    ensures DigitsValue(NatToString(n)) == n
    decreases n
  {
    var s := NatToString(n);
    if n >= 10 {
      DigitsValueOfNat(n / 10);
      assert s[..|s| - 1] == NatToString(n / 10);
    }
  }

  lemma DigitsTrimmed(s: string)
    requires IsDigits(s)
    ensures Trimmed(s)
  {
    assert '0' <= s[0] <= '9' && '0' <= s[|s| - 1] <= '9';
  }

  /** Digits alone parse to their value. */
  lemma ParseIntOfDigits(s: string)
    requires IsDigits(s)
    ensures ParseInt(s) == Some(DigitsValue(s))
  {
    DigitsTrimmed(s);
    StripTrimmed(s);
    assert '0' <= s[0] <= '9';
    assert ParseSigned(s) == Some(DigitsValue(s));
  }

  /** int(str(n)) == n. */
  lemma ParseIntOfNatToString(n: nat)
    ensures ParseInt(NatToString(n)) == Some(n)
  {
    ParseIntOfDigits(NatToString(n));
    DigitsValueOfNat(n);
  }

  /** Different numbers print differently. */
  lemma NatToStringInjective(m: nat, n: nat)
    requires NatToString(m) == NatToString(n)
    ensures m == n
  {
    DigitsValueOfNat(m);
    DigitsValueOfNat(n);
  }

  /** Python's ordering of strings: code point by code point, a proper prefix first. */
  predicate LexLe(a: string, b: string)
  {
    a == [] || (b != [] && (a[0] < b[0] || (a[0] == b[0] && LexLe(a[1..], b[1..]))))
  }

  lemma {:induction false} LexLeTotal(a: string, b: string)
    ensures LexLe(a, b) || LexLe(b, a)
  {
    if a != [] && b != [] && a[0] == b[0] {
      LexLeTotal(a[1..], b[1..]);
    }
  }

  lemma {:induction false} LexLeAntisymmetric(a: string, b: string)
    requires LexLe(a, b) && LexLe(b, a)
    ensures a == b
  {
    if a != [] && b != [] {
      LexLeAntisymmetric(a[1..], b[1..]);
      assert a == [a[0]] + a[1..] && b == [b[0]] + b[1..];
    }
  }

  lemma {:induction false} LexLeTransitive(a: string, b: string, c: string)
    requires LexLe(a, b) && LexLe(b, c)
    ensures LexLe(a, c)
  {
    if a != [] && b != [] && c != [] && a[0] == b[0] && b[0] == c[0] {
      LexLeTransitive(a[1..], b[1..], c[1..]);
    }
  }
}
