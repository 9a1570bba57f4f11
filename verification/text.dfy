/** String primitives the service relies on: `str.strip`, `lower`/`upper`,
    prefix and substring tests, `replace`, and the column-name slug `_slug`
    (main.py:85-86). */
module Text {

  /** The characters Python's `str.isspace` accepts (and `str.strip` removes). */
  predicate IsSpace(c: char)
  {
    || c == ' ' || '\t' <= c <= '\r' || '\U{1C}' <= c <= '\U{1F}'
    || c == '\U{85}' || c == '\U{A0}' || c == '\U{1680}'
    || '\U{2000}' <= c <= '\U{200A}' || c == '\U{2028}' || c == '\U{2029}'
    || c == '\U{202F}' || c == '\U{205F}' || c == '\U{3000}'
  }

  /** `s.lstrip()`: drop leading whitespace. */
  function LStrip(s: string): string
  {
    if s != [] && IsSpace(s[0]) then LStrip(s[1..]) else s
  }

  /** `s.rstrip()`: drop trailing whitespace. */
  function RStrip(s: string): string
  {
    if s != [] && IsSpace(s[|s| - 1]) then RStrip(s[..|s| - 1]) else s
  }

  /** `lstrip` keeps a suffix of `s` that starts with no whitespace. */
  lemma {:induction false} LStripShape(s: string)
    ensures var r := LStrip(s); |r| <= |s| && r == s[|s| - |r|..]
    ensures var r := LStrip(s); r == [] || !IsSpace(r[0])
  {
    if s != [] && IsSpace(s[0]) {
      LStripShape(s[1..]);
    }
  }

  /** `rstrip` keeps a prefix of `s` that ends with no whitespace. */
  lemma {:induction false} RStripShape(s: string)
    ensures var r := RStrip(s); |r| <= |s| && r == s[..|r|]
    ensures var r := RStrip(s); r == [] || !IsSpace(r[|r| - 1])
  {
    if s != [] && IsSpace(s[|s| - 1]) {
      RStripShape(s[..|s| - 1]);
    }
  }

  /** `s.strip()`. */
  function Strip(s: string): (r: string)
  {
    RStrip(LStrip(s))
  }

  /** Where the stripped string starts inside `s`. */
  function StripStart(s: string): nat
  {
    LStripShape(s);
    |s| - |LStrip(s)|
  }

  /** The stripped string is a slice of `s`. */
  lemma StripSlice(s: string)
    ensures StripStart(s) + |Strip(s)| <= |s|
    ensures Strip(s) == s[StripStart(s)..StripStart(s) + |Strip(s)|]
  {
    var l := LStrip(s);
    var i := |s| - |l|;
    var r := RStrip(l);
    LStripShape(s);
    RStripShape(l);
    assert l == s[i..] && r == l[..|r|];
    assert s[i..][..|r|] == s[i..i + |r|];
  }

  /** The stripped string has no whitespace at either end. */
  lemma StripEnds(s: string)
    ensures Strip(s) == [] || (!IsSpace(Strip(s)[0]) && !IsSpace(Strip(s)[|Strip(s)| - 1]))
  {
    var l := LStrip(s);
    var r := RStrip(l);
    LStripShape(s);
    RStripShape(l);
    if r != [] {
      assert r == l[..|r|];
      assert r[0] == l[0];
    }
  }

  /** The stripped string is a slice of `s` with no whitespace at either end. */
  lemma StripShape(s: string)
    ensures StripStart(s) + |Strip(s)| <= |s|
    ensures Strip(s) == s[StripStart(s)..StripStart(s) + |Strip(s)|]
    ensures Strip(s) == [] || (!IsSpace(Strip(s)[0]) && !IsSpace(Strip(s)[|Strip(s)| - 1]))
  {
    StripSlice(s);
    StripEnds(s);
  }

  /** What `lstrip` removes is whitespace. */
  lemma {:induction false} LStripRemovesSpace(s: string)
    ensures forall k :: 0 <= k < |s| - |LStrip(s)| ==> IsSpace(s[k])
  {
    if s != [] && IsSpace(s[0]) {
      LStripRemovesSpace(s[1..]);
      forall k | 1 <= k < |s| - |LStrip(s)| ensures IsSpace(s[k]) {
        assert s[k] == s[1..][k - 1];
      }
    }
  }

  /** What `rstrip` removes is whitespace. */
  lemma {:induction false} RStripRemovesSpace(s: string)
    ensures forall k :: |RStrip(s)| <= k < |s| ==> IsSpace(s[k])
  {
    if s != [] && IsSpace(s[|s| - 1]) {
      RStripRemovesSpace(s[..|s| - 1]);
      forall k | |RStrip(s)| <= k < |s| - 1 ensures IsSpace(s[k]) {
        assert s[k] == s[..|s| - 1][k];
      }
    }
  }

  /** What `strip` removes from either end of `s` is whitespace. */
  lemma StripRemovesSpace(s: string)
    ensures forall k :: 0 <= k < StripStart(s) ==> IsSpace(s[k])
    ensures forall k :: StripStart(s) + |Strip(s)| <= k < |s| ==> IsSpace(s[k])
  {
    var l := LStrip(s);
    LStripShape(s);
    var i := |s| - |l|;
    assert l == s[i..];
    var r := RStrip(l);
    RStripShape(l);
    LStripRemovesSpace(s);
    RStripRemovesSpace(l);
    forall k | i + |r| <= k < |s| ensures IsSpace(s[k]) {
      assert s[k] == l[k - i];
    }
  }

  /** A string without whitespace at its ends is its own strip. */
  lemma StripNoop(s: string)
    requires s == [] || (!IsSpace(s[0]) && !IsSpace(s[|s| - 1]))
    ensures Strip(s) == s
  {
  }

  /** Stripping twice is stripping once. */
  lemma StripIdempotent(s: string)
    ensures Strip(Strip(s)) == Strip(s)
  {
    StripShape(s);
    StripNoop(Strip(s));
  }

  /** Python's `str.lower` on one character, for ASCII and Latin-1 letters. */
  function LowerChar(c: char): char
  {
    if 'A' <= c <= 'Z' || ('\U{C0}' <= c <= '\U{DE}' && c != '\U{D7}') then (c as int + 32) as char
    else if c == '\U{178}' then '\U{FF}'
    else c
  }

  /** Python's `str.upper` on one character, for ASCII and Latin-1 letters. */
  function UpperChar(c: char): char
  {
    if 'a' <= c <= 'z' || ('\U{E0}' <= c <= '\U{FE}' && c != '\U{F7}') then (c as int - 32) as char
    else if c == '\U{FF}' then '\U{178}'
    else if c == '\U{B5}' then '\U{39C}'
    else c
  }

  function Lower(s: string): (r: string)
    ensures |r| == |s| && forall i :: 0 <= i < |s| ==> r[i] == LowerChar(s[i])
  {
    seq(|s|, i requires 0 <= i < |s| => LowerChar(s[i]))
  }

  function Upper(s: string): (r: string)
    ensures |r| == |s| && forall i :: 0 <= i < |s| ==> r[i] == UpperChar(s[i])
  {
    seq(|s|, i requires 0 <= i < |s| => UpperChar(s[i]))
  }

  predicate StartsWith(s: string, p: string)
  {
    |p| <= |s| && s[..|p|] == p
  }

  predicate EndsWith(s: string, p: string)
  {
    |p| <= |s| && s[|s| - |p|..] == p
  }

  /** Python's `p in s` for strings. */
  predicate Contains(s: string, p: string)
  {
    exists i :: 0 <= i <= |s| - |p| && StartsWith(s[i..], p)
  }

  /** Python's `s.replace(pat, rep)`: every occurrence, left to right, without overlap. */
  function ReplaceAll(s: string, pat: string, rep: string): string
    requires pat != []
    decreases |s|
  {
    if |s| < |pat| then s
    else if s[..|pat|] == pat then rep + ReplaceAll(s[|pat|..], pat, rep)
    else [s[0]] + ReplaceAll(s[1..], pat, rep)
  }

  // ---------------------------------------------------------------------------
  // _slug: NFD-decompose, drop what is not ASCII, remove spaces, lower-case.

  predicate IsAscii(c: char) { c < '\U{80}' }

  /** NFD decomposition followed by `encode("ascii", "ignore")`, for one
      character: an ASCII character stays, an accented Latin-1 letter keeps
      its base letter, anything else is dropped. */
  function FoldChar(c: char): (r: string)
    ensures forall i :: 0 <= i < |r| ==> IsAscii(r[i])
    ensures IsAscii(c) ==> r == [c]
  {
    if IsAscii(c) then [c]
    else if '\U{C0}' <= c <= '\U{C5}' then "A"
    else if c == '\U{C7}' then "C"
    else if '\U{C8}' <= c <= '\U{CB}' then "E"
    else if '\U{CC}' <= c <= '\U{CF}' then "I"
    else if c == '\U{D1}' then "N"
    else if '\U{D2}' <= c <= '\U{D6}' then "O"
    else if '\U{D9}' <= c <= '\U{DC}' then "U"
    else if c == '\U{DD}' || c == '\U{178}' then "Y"
    else if '\U{E0}' <= c <= '\U{E5}' then "a"
    else if c == '\U{E7}' then "c"
    else if '\U{E8}' <= c <= '\U{EB}' then "e"
    else if '\U{EC}' <= c <= '\U{EF}' then "i"
    else if c == '\U{F1}' then "n"
    else if '\U{F2}' <= c <= '\U{F6}' then "o"
    else if '\U{F9}' <= c <= '\U{FC}' then "u"
    else if c == '\U{FD}' || c == '\U{FF}' then "y"
    else ""
  }

  function Fold(s: string): (r: string)
    ensures forall i :: 0 <= i < |r| ==> IsAscii(r[i])
  {
    if s == [] then [] else FoldChar(s[0]) + Fold(s[1..])
  }

  /** `s.replace(" ", "")`. */
  function RemoveSpaces(s: string): (r: string)
    ensures forall i :: 0 <= i < |r| ==> r[i] != ' ' && r[i] in s
  {
    if s == [] then [] else (if s[0] == ' ' then [] else [s[0]]) + RemoveSpaces(s[1..])
  }

  /** A slug: ASCII only, no space, no upper-case letter. */
  predicate IsSlug(t: string)
  {
    forall i :: 0 <= i < |t| ==> IsAscii(t[i]) && t[i] != ' ' && !('A' <= t[i] <= 'Z')
  }

  /** `_slug(text)` (main.py:85-86). */
  function Slug(s: string): (r: string)
    ensures IsSlug(r)
  {
    Lower(RemoveSpaces(Fold(s)))
  }

  lemma {:induction false} FoldAppend(a: string, b: string)
    ensures Fold(a + b) == Fold(a) + Fold(b)
  {
    if a != [] {
      assert (a + b)[0] == a[0] && (a + b)[1..] == a[1..] + b;
      FoldAppend(a[1..], b);
      assert Fold(a + b) == FoldChar(a[0]) + (Fold(a[1..]) + Fold(b));
    } else {
      assert a + b == b;
    }
  }

  lemma {:induction false} RemoveSpacesAppend(a: string, b: string)
    ensures RemoveSpaces(a + b) == RemoveSpaces(a) + RemoveSpaces(b)
  {
    if a != [] {
      assert (a + b)[0] == a[0] && (a + b)[1..] == a[1..] + b;
      RemoveSpacesAppend(a[1..], b);
      var head: string := if a[0] == ' ' then [] else [a[0]];
      assert RemoveSpaces(a + b) == head + (RemoveSpaces(a[1..]) + RemoveSpaces(b));
    } else {
      assert a + b == b;
    }
  }

  /** The slug of one character. */
  function SlugChar(c: char): string
  {
    Lower(RemoveSpaces(FoldChar(c)))
  }

  /** A slug is computed character by character. */
  lemma SlugCons(s: string)
    requires s != []
    ensures Slug(s) == SlugChar(s[0]) + Slug(s[1..])
  {
    RemoveSpacesAppend(FoldChar(s[0]), Fold(s[1..]));
  }

  lemma LowerAppend(a: string, b: string)
    ensures Lower(a + b) == Lower(a) + Lower(b)
  {
    var l, r := Lower(a + b), Lower(a) + Lower(b);
    forall i | 0 <= i < |l| ensures l[i] == r[i] {
      if i < |a| {
        assert (a + b)[i] == a[i];
      } else {
        assert (a + b)[i] == b[i - |a|];
      }
    }
  }

  lemma {:induction false} SlugAppend(a: string, b: string)
    ensures Slug(a + b) == Slug(a) + Slug(b)
  {
    var fa, fb := Fold(a), Fold(b);
    FoldAppend(a, b);
    RemoveSpacesAppend(fa, fb);
    LowerAppend(RemoveSpaces(fa), RemoveSpaces(fb));
  }

  /** A string that is already a slug is its own slug. */
  lemma {:induction false} SlugOfSlug(t: string)
    requires IsSlug(t)
    ensures Slug(t) == t
  {
    if t != [] {
      SlugCons(t);
      SlugOfSlug(t[1..]);
    }
  }

  /** `_slug` is idempotent: slugging a column title twice changes nothing. */
  lemma SlugIdempotent(s: string)
    ensures Slug(Slug(s)) == Slug(s)
  {
    SlugOfSlug(Slug(s));
  }

  lemma SlugOfSpace()
    ensures Slug(" ") == []
  {
    assert Fold(" ") == " " by {
      assert Fold(" ") == FoldChar(' ') + Fold([]);
    }
    assert RemoveSpaces(" ") == [] + RemoveSpaces([]);
  }

  /** A space anywhere in a column name does not change its slug. */
  lemma SlugIgnoresSpace(a: string, b: string)
    ensures Slug(a + " " + b) == Slug(a + b)
  {
    var x := a + " ";
    SlugAppend(x, b);
    SlugAppend(a, " ");
    SlugAppend(a, b);
    SlugOfSpace();
    assert Slug(x) == Slug(a);
  }

  /** One character folds to at most one ASCII character, never a space unless it is one. */
  lemma FoldCharShape(c: char)
    ensures |FoldChar(c)| <= 1
    ensures FoldChar(c) != [] ==> (FoldChar(c)[0] == ' ' <==> c == ' ')
  {
  }

  /** The slug of one character: its folded letter, lower-cased, if any. */
  lemma SlugCharShape(c: char)
    ensures SlugChar(c) == if c == ' ' || FoldChar(c) == [] then [] else [LowerChar(FoldChar(c)[0])]
  {
    var f := FoldChar(c);
    FoldCharShape(c);
    if f != [] {
      assert f == [f[0]];
      assert RemoveSpaces(f) == (if f[0] == ' ' then [] else [f[0]]) + RemoveSpaces([]);
    }
  }

  /** Folding commutes with lower-casing. */
  lemma FoldLower(c: char)
    ensures FoldChar(LowerChar(c)) == Lower(FoldChar(c))
  {
    if IsAscii(c) {
      assert Lower([c]) == [LowerChar(c)];
    } else if c <= '\U{DE}' {
    } else if c == '\U{178}' {
      assert Lower("Y") == "y";
    } else {
      assert LowerChar(c) == c;
    }
  }

  /** Folding commutes with upper-casing. */
  lemma FoldUpper(c: char)
    ensures FoldChar(UpperChar(c)) == Upper(FoldChar(c))
  {
    if IsAscii(c) {
      assert Upper([c]) == [UpperChar(c)];
    } else if c < '\U{E0}' {
      assert UpperChar(c) == c || c == '\U{B5}';
    } else {
    }
  }

  lemma SlugCharIgnoresLower(c: char)
    ensures SlugChar(LowerChar(c)) == SlugChar(c)
  {
    var d := LowerChar(c);
    SlugCharShape(c);
    SlugCharShape(d);
    FoldLower(c);
    FoldCharShape(c);
  }

  lemma SlugCharIgnoresUpper(c: char)
    ensures SlugChar(UpperChar(c)) == SlugChar(c)
  {
    var d := UpperChar(c);
    SlugCharShape(c);
    SlugCharShape(d);
    FoldUpper(c);
    FoldCharShape(c);
  }

  lemma LowerCons(s: string)
    requires s != []
    ensures Lower(s)[0] == LowerChar(s[0]) && Lower(s)[1..] == Lower(s[1..])
  {
  }

  lemma UpperCons(s: string)
    requires s != []
    ensures Upper(s)[0] == UpperChar(s[0]) && Upper(s)[1..] == Upper(s[1..])
  {
  }

  lemma {:induction false} SlugIgnoresLower(s: string)
    ensures Slug(Lower(s)) == Slug(s)
  {
    if s != [] {
      var t := Lower(s);
      SlugCons(s);
      SlugCons(t);
      LowerCons(s);
      SlugCharIgnoresLower(s[0]);
      SlugIgnoresLower(s[1..]);
    }
  }

  lemma {:induction false} SlugIgnoresUpper(s: string)
    ensures Slug(Upper(s)) == Slug(s)
  {
    if s != [] {
      var t := Upper(s);
      SlugCons(s);
      SlugCons(t);
      UpperCons(s);
      SlugCharIgnoresUpper(s[0]);
      SlugIgnoresUpper(s[1..]);
    }
  }

  /** Lower-casing or upper-casing a column name does not change its slug. */
  lemma SlugIgnoresCase(s: string)
    ensures Slug(Lower(s)) == Slug(s)
    ensures Slug(Upper(s)) == Slug(s)
  {
    SlugIgnoresLower(s);
    SlugIgnoresUpper(s);
  }

  /** Lower-casing neither creates nor removes whitespace. */
  lemma LowerCharSpace(c: char)
    ensures IsSpace(LowerChar(c)) == IsSpace(c)
  {
  }

  lemma {:induction false} LStripLower(s: string)
    ensures LStrip(Lower(s)) == Lower(LStrip(s))
  {
    if s != [] {
      LowerCharSpace(s[0]);
      assert Lower(s)[1..] == Lower(s[1..]);
      if IsSpace(s[0]) {
        LStripLower(s[1..]);
      }
    }
  }

  lemma {:induction false} RStripLower(s: string)
    ensures RStrip(Lower(s)) == Lower(RStrip(s))
  {
    if s != [] {
      LowerCharSpace(s[|s| - 1]);
      assert Lower(s)[..|s| - 1] == Lower(s[..|s| - 1]);
      if IsSpace(s[|s| - 1]) {
        RStripLower(s[..|s| - 1]);
      }
    }
  }

  /** `s.lower().strip() == s.strip().lower()`. */
  lemma StripLower(s: string)
    ensures Strip(Lower(s)) == Lower(Strip(s))
  {
    LStripLower(s);
    RStripLower(LStrip(s));
  }

  /** `s.lower().upper() == s.upper()`. */
  lemma UpperOfLower(s: string)
    ensures Upper(Lower(s)) == Upper(s)
  {
  }

  // ---------------------------------------------------------------------------
  // Decimal digits.

  predicate IsDigit(c: char) { '0' <= c <= '9' }

  predicate AllDigits(s: string)
  {
    forall i :: 0 <= i < |s| ==> IsDigit(s[i])
  }

  function DigitValue(c: char): nat
    requires IsDigit(c)
  {
    c as int - '0' as int
  }

  function DigitChar(n: nat): (c: char)
    requires n < 10
    ensures IsDigit(c) && DigitValue(c) == n
  {
    ('0' as int + n) as char
  }

  /** The number a string of decimal digits denotes (`""` denotes 0). */
  function DigitsValue(s: string): nat
    requires AllDigits(s)
  {
    if s == [] then 0 else 10 * DigitsValue(s[..|s| - 1]) + DigitValue(s[|s| - 1])
  }

  function Pow10(k: nat): (r: nat)
    ensures r >= 1
  {
    if k == 0 then 1 else 10 * Pow10(k - 1)
  }
}
