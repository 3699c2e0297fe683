/**
 * The few java.lang operations the configuration code relies on, with the
 * edge cases that decide its behaviour:
 *  - String.indexOf / String.contains for a single character;
 *  - String.split with a one-character literal separator and limit 0;
 *  - String.toUpperCase(Locale.ROOT), restricted to ASCII letters;
 *  - Integer.parseInt in radix 10;
 *  - Enum.valueOf.
 */
module JavaLang {
  import opened Wrappers

  // ---------------------------------------------------------------------------
  // indexOf

  /** The index of the first `c` in `s`, or |s| when `s` holds no `c`. */
  function FirstIndex(s: string, c: char): (i: nat)
    ensures i <= |s|
    ensures c !in s[..i]
    ensures i < |s| <==> c in s
    ensures i < |s| ==> s[i] == c
    decreases |s|
  {
    if |s| == 0 then 0
    else if s[0] == c then 0
    else
      var j := FirstIndex(s[1..], c);
      assert s[..1 + j] == [s[0]] + s[1..][..j];
      1 + j
  }

  /** The text before the first `c` (all of `s` when there is none). */
  function Before(s: string, c: char): string {
    s[..FirstIndex(s, c)]
  }

  /** The text after the first `c`. */
  function After(s: string, c: char): string
    requires c in s
  {
    s[FirstIndex(s, c) + 1..]
  }

  // ---------------------------------------------------------------------------
  // split

  /**
   * The pieces of `s` between occurrences of `sep`, in order, empty pieces
   * included: what String.split finds before it drops trailing empty strings.
   */
  function Pieces(s: string, sep: char): (r: seq<string>)
    ensures |r| >= 1
    ensures forall k :: 0 <= k < |r| ==> sep !in r[k]
    decreases |s|
  {
    if |s| == 0 then [""]
    else
      var rest := Pieces(s[1..], sep);
      if s[0] == sep then [""] + rest
      else [[s[0]] + rest[0]] + rest[1..]
  }

  /** The pieces glued back together with `sep` between neighbours. */
  function Join(pieces: seq<string>, sep: char): string
    requires |pieces| >= 1
    decreases |pieces|
  {
    if |pieces| == 1 then pieces[0]
    else pieces[0] + [sep] + Join(pieces[1..], sep)
  }

  /** Splitting loses nothing: joining the pieces gives back the string. */
  lemma {:induction false} JoinPieces(s: string, sep: char)
    ensures Join(Pieces(s, sep), sep) == s
    decreases |s|
  {
    if |s| > 0 {
      var rest := Pieces(s[1..], sep);
      JoinPieces(s[1..], sep);
      assert s == [s[0]] + s[1..];
      if s[0] == sep {
        assert ([""] + rest)[1..] == rest;
      } else {
        var p := [[s[0]] + rest[0]] + rest[1..];
        if |rest| > 1 {
          assert p[1..] == rest[1..];
        }
      }
    }
  }

  /** A prefix free of `sep` is glued onto the first piece of what follows. */
  lemma {:induction false} PiecesAfterFreePrefix(p: string, t: string, sep: char)
    requires sep !in p
    ensures Pieces(p + t, sep) == [p + Pieces(t, sep)[0]] + Pieces(t, sep)[1..]
    decreases |p|
  {
    if |p| == 0 {
      var tp := Pieces(t, sep);
      assert p + t == t;
      assert p + tp[0] == tp[0];
      assert [tp[0]] + tp[1..] == tp;
    } else {
      var tp := Pieces(t, sep);
      assert sep !in p[1..] by { assert forall i :: 0 <= i < |p| - 1 ==> p[1..][i] == p[i + 1]; }
      PiecesAfterFreePrefix(p[1..], t, sep);
      assert (p + t)[0] == p[0] != sep;
      assert (p + t)[1..] == p[1..] + t;
      var rest := Pieces(p[1..] + t, sep);
      assert rest == [p[1..] + tp[0]] + tp[1..];
      assert Pieces(p + t, sep) == [[p[0]] + rest[0]] + rest[1..];
      assert p == [p[0]] + p[1..];
      assert [p[0]] + (p[1..] + tp[0]) == p + tp[0];
    }
  }

  /** Splitting is the inverse of joining pieces that hold no separator. */
  lemma {:induction false} PiecesJoin(ps: seq<string>, sep: char)
    requires |ps| >= 1
    requires forall k :: 0 <= k < |ps| ==> sep !in ps[k]
    ensures Pieces(Join(ps, sep), sep) == ps
    decreases |ps|
  {
    if |ps| == 1 {
      PiecesAfterFreePrefix(ps[0], "", sep);
      assert ps[0] + "" == ps[0];
      assert Pieces("", sep) == [""];
    } else {
      var tail := Join(ps[1..], sep);
      assert Join(ps, sep) == ps[0] + ([sep] + tail);
      PiecesJoin(ps[1..], sep);
      PiecesAfterFreePrefix(ps[0], [sep] + tail, sep);
      assert ([sep] + tail)[0] == sep && ([sep] + tail)[1..] == tail;
      var q := Pieces([sep] + tail, sep);
      assert q == [""] + ps[1..];
      assert ps[0] + q[0] == ps[0];
      assert q[1..] == ps[1..];
      assert ps == [ps[0]] + ps[1..];
    }
  }

  /** A string with no separator is a single piece. */
  lemma PiecesWithoutSeparator(s: string, sep: char)
    requires sep !in s
    ensures Pieces(s, sep) == [s]
  {
    PiecesAfterFreePrefix(s, "", sep);
    assert s + "" == s;
  }

  /** Cutting at the first separator: the text before it, then the pieces after it. */
  lemma PiecesAtFirstSeparator(s: string, sep: char)
    requires sep in s
    ensures Pieces(s, sep) == [Before(s, sep)] + Pieces(After(s, sep), sep)
  {
    var i := FirstIndex(s, sep);
    var before, t := s[..i], s[i..];
    var after := s[i + 1..];
    assert s == before + t;
    assert t[0] == sep && t[1..] == after;
    PiecesAfterFreePrefix(before, t, sep);
    var tp := Pieces(t, sep);
    assert tp == [""] + Pieces(after, sep);
    assert before + tp[0] == before;
  }

  /** The first piece is the text before the first separator, the rest are the pieces after it. */
  lemma PiecesByFirstSeparator(s: string, sep: char)
    ensures Pieces(s, sep)[0] == Before(s, sep)
    ensures sep !in s ==> Pieces(s, sep) == [s]
    ensures sep in s ==> Pieces(s, sep) == [Before(s, sep)] + Pieces(After(s, sep), sep)
  {
    if sep in s {
      PiecesAtFirstSeparator(s, sep);
    } else {
      PiecesWithoutSeparator(s, sep);
    }
  }

  /** A string of separators only cuts into empty pieces. */
  lemma {:induction false} SeparatorsOnlyPiecesEmpty(s: string, sep: char)
    requires forall i :: 0 <= i < |s| ==> s[i] == sep
    ensures forall k :: 0 <= k < |Pieces(s, sep)| ==> Pieces(s, sep)[k] == ""
    decreases |s|
  {
    if |s| > 0 {
      SeparatorsOnlyPiecesEmpty(s[1..], sep);
      assert s[0] == sep;
      assert Pieces(s, sep) == [""] + Pieces(s[1..], sep);
    }
  }

  /** A character other than the separator ends up in some non-empty piece. */
  lemma {:induction false} NonSeparatorMakesPiece(s: string, sep: char, i: nat)
    requires i < |s| && s[i] != sep
    ensures exists k :: 0 <= k < |Pieces(s, sep)| && Pieces(s, sep)[k] != ""
    decreases |s|
  {
    var ps := Pieces(s, sep);
    if s[0] != sep {
      assert ps[0] == [s[0]] + Pieces(s[1..], sep)[0];
      assert ps[0] != "";
    } else {
      NonSeparatorMakesPiece(s[1..], sep, i - 1);
      var rest := Pieces(s[1..], sep);
      var k :| 0 <= k < |rest| && rest[k] != "";
      assert ps == [""] + rest;
      assert ps[k + 1] == rest[k];
    }
  }

  /** A non-empty piece holds a character other than the separator. */
  lemma {:induction false} NonEmptyPieceHasNonSeparator(s: string, sep: char, k: nat)
    requires k < |Pieces(s, sep)| && Pieces(s, sep)[k] != ""
    ensures exists i :: 0 <= i < |s| && s[i] != sep
    decreases |s|
  {
    if s[0] == sep {
      var rest := Pieces(s[1..], sep);
      assert Pieces(s, sep) == [""] + rest;
      NonEmptyPieceHasNonSeparator(s[1..], sep, k - 1);
      var i :| 0 <= i < |s[1..]| && s[1..][i] != sep;
      assert s[i + 1] != sep;
    } else {
      assert s[0] != sep;
    }
  }

  /** Every piece is empty exactly when the string is made of separators only. */
  lemma AllPiecesEmpty(s: string, sep: char)
    ensures (forall k :: 0 <= k < |Pieces(s, sep)| ==> Pieces(s, sep)[k] == "")
        <==> (forall i :: 0 <= i < |s| ==> s[i] == sep)
  {
    if forall i :: 0 <= i < |s| ==> s[i] == sep {
      SeparatorsOnlyPiecesEmpty(s, sep);
    } else {
      var i :| 0 <= i < |s| && s[i] != sep;
      NonSeparatorMakesPiece(s, sep, i);
    }
  }

  /** Removes the empty strings at the end of `ps`. */
  function DropTrailingEmpty(ps: seq<string>): (r: seq<string>)
    ensures |r| <= |ps| && r == ps[..|r|]
    ensures forall k :: |r| <= k < |ps| ==> ps[k] == ""
    ensures r == [] || r[|r| - 1] != ""
    decreases |ps|
  {
    if |ps| == 0 then ps
    else if ps[|ps| - 1] == "" then DropTrailingEmpty(ps[..|ps| - 1])
    else ps
  }

  /**
   * String.split with a one-character separator that is not a regular
   * expression metacharacter, and limit 0. With no separator in `s` the
   * result is `[s]`, even for the empty string; otherwise trailing empty
   * strings are dropped (possibly all of them) and leading ones are kept.
   */
  function Split(s: string, sep: char): (r: seq<string>)
    ensures |r| <= |Pieces(s, sep)| && r == Pieces(s, sep)[..|r|]
    ensures forall k :: |r| <= k < |Pieces(s, sep)| ==> Pieces(s, sep)[k] == ""
    ensures sep in s && r != [] ==> r[|r| - 1] != ""
  {
    if sep !in s then
      PiecesByFirstSeparator(s, sep);
      [s]
    else
      DropTrailingEmpty(Pieces(s, sep))
  }

  /** The split comes back empty exactly for a non-empty string of separators only. */
  lemma SplitEmptyIff(s: string, sep: char)
    ensures Split(s, sep) == [] <==> |s| > 0 && forall i :: 0 <= i < |s| ==> s[i] == sep
  {
    var ps, r := Pieces(s, sep), Split(s, sep);
    if r == [] {
      assert sep in s;
      assert forall k :: 0 <= k < |ps| ==> ps[k] == "";
      AllPiecesEmpty(s, sep);
    } else if sep in s {
      assert ps[|r| - 1] == r[|r| - 1] != "";
      NonEmptyPieceHasNonSeparator(s, sep, |r| - 1);
    } else if |s| > 0 {
      assert s[0] != sep;
    }
  }

  // ---------------------------------------------------------------------------
  // toUpperCase(Locale.ROOT), ASCII only

  predicate IsLower(c: char) { 'a' <= c <= 'z' }
  predicate IsUpper(c: char) { 'A' <= c <= 'Z' }

  predicate HasNoLowerCase(s: string) {
    forall i :: 0 <= i < |s| ==> !IsLower(s[i])
  }

  function UpperCase(c: char): char {
    if IsLower(c) then (c as int - 32) as char else c
  }

  /** `s` with every ASCII lower-case letter replaced by its upper-case form. */
  function ToUpperCase(s: string): (r: string)
    ensures |r| == |s|
    ensures forall i :: 0 <= i < |s| ==> r[i] == UpperCase(s[i])
    decreases |s|
  {
    if |s| == 0 then ""
    else [UpperCase(s[0])] + ToUpperCase(s[1..])
  }

  /** Two characters are the same letter in either case, or equal. */
  predicate SameIgnoringCase(x: char, y: char) {
    x == y
    || (IsLower(x) && IsUpper(y) && x as int - y as int == 32)
    || (IsUpper(x) && IsLower(y) && y as int - x as int == 32)
  }

  /** String.equalsIgnoreCase, for ASCII letters. */
  predicate EqualsIgnoreCase(a: string, b: string) {
    |a| == |b| && forall i :: 0 <= i < |a| ==> SameIgnoringCase(a[i], b[i])
  }

  /** Upper-casing identifies exactly the strings that differ only in letter case. */
  lemma ToUpperCaseIgnoresCase(a: string, b: string)
    ensures ToUpperCase(a) == ToUpperCase(b) <==> EqualsIgnoreCase(a, b)
  {
    if ToUpperCase(a) == ToUpperCase(b) {
      forall i | 0 <= i < |a| ensures SameIgnoringCase(a[i], b[i]) {
        assert UpperCase(a[i]) == ToUpperCase(a)[i] == ToUpperCase(b)[i] == UpperCase(b[i]);
      }
    }
    if EqualsIgnoreCase(a, b) {
      assert forall i :: 0 <= i < |a| ==> ToUpperCase(a)[i] == ToUpperCase(b)[i];
    }
  }

  /** Upper-casing leaves a string with no lower-case letter unchanged. */
  lemma ToUpperCaseKeepsUpper(s: string)
    requires HasNoLowerCase(s)
    ensures ToUpperCase(s) == s
  {
  }

  /** The result holds no lower-case letter, so upper-casing twice changes nothing. */
  lemma ToUpperCaseIdempotent(s: string)
    ensures HasNoLowerCase(ToUpperCase(s))
    ensures ToUpperCase(ToUpperCase(s)) == ToUpperCase(s)
  {
  }

  // ---------------------------------------------------------------------------
  // Integer.parseInt

  /** Java's `int`. */
  newtype Int32 = x: int | -0x8000_0000 <= x < 0x8000_0000

  predicate IsDigit(c: char) { '0' <= c <= '9' }

  predicate AllDigits(ds: string) {
    forall i :: 0 <= i < |ds| ==> IsDigit(ds[i])
  }

  function DigitValue(c: char): nat
    requires IsDigit(c)
  {
    c as int - '0' as int
  }

  /** The number a string of decimal digits denotes (leading zeros allowed). */
  function DigitsValue(ds: string): nat
    requires AllDigits(ds)
    decreases |ds|
  {
    if |ds| == 0 then 0
    else DigitsValue(ds[..|ds| - 1]) * 10 + DigitValue(ds[|ds| - 1])
  }

  /** The text after an optional leading '-' or '+'. */
  function Unsigned(s: string): string {
    if |s| > 0 && (s[0] == '-' || s[0] == '+') then s[1..] else s
  }

  /** The absolute value of an int, as an unbounded integer. */
  function Magnitude(n: Int32): nat {
    if n < 0 then -(n as int) else n as int
  }

  /**
   * Integer.parseInt(s, 10): an optional '-' or '+' followed by at least one
   * decimal digit, denoting a value in the 32-bit signed range; anything
   * else throws NumberFormatException (here: None).
   */
  function ParseInt(s: string): (r: Option<Int32>)
    ensures r.Some? ==> |s| > 0 && IsDigit(s[|s| - 1])
    ensures |Unsigned(s)| == 0 || !AllDigits(Unsigned(s)) ==> r.None?
    ensures r.Some? ==>
      && |Unsigned(s)| > 0 && AllDigits(Unsigned(s))
      && DigitsValue(Unsigned(s)) == Magnitude(r.value)
      && (r.value < 0 ==> s[0] == '-')
      && (s[0] == '-' ==> r.value <= 0)
    ensures (&& |Unsigned(s)| > 0 && AllDigits(Unsigned(s))
             && DigitsValue(Unsigned(s)) < (if s[0] == '-' then 0x8000_0001 else 0x8000_0000))
      ==> r.Some?
  {
    if |s| == 0 then None
    else
      var negative := s[0] == '-';
      var digits := if s[0] == '-' || s[0] == '+' then s[1..] else s;
      if |digits| == 0 || !AllDigits(digits) then None
      else
        var magnitude: int := DigitsValue(digits);
        var value: int := if negative then -magnitude else magnitude;
        if -0x8000_0000 <= value < 0x8000_0000 then Some(value as Int32) else None
  }

  function DigitChar(d: nat): (c: char)
    requires d < 10
    ensures IsDigit(c) && DigitValue(c) == d
  {
    ('0' as int + d) as char
  }

  /** The decimal digits of `n`, without leading zeros. */
  function NatDigits(n: nat): (ds: string)
    ensures |ds| >= 1 && AllDigits(ds)
    decreases n
  {
    if n < 10 then [DigitChar(n)] else NatDigits(n / 10) + [DigitChar(n % 10)]
  }

  /** Integer.toString: the decimal form of `n`, with a '-' when negative. */
  function FormatInt(n: Int32): string {
    if n < 0 then "-" + NatDigits(-(n as int)) else NatDigits(n as int)
  }

  lemma {:induction false} DigitsValueOfNatDigits(n: nat)
    ensures DigitsValue(NatDigits(n)) == n
    decreases n
  {
    if n >= 10 {
      DigitsValueOfNatDigits(n / 10);
      var ds := NatDigits(n);
      assert ds[..|ds| - 1] == NatDigits(n / 10);
    }
  }

  /** parseInt reads back what toString writes, for every int. */
  lemma ParseFormatInt(n: Int32)
    ensures ParseInt(FormatInt(n)) == Some(n)
  {
    DigitsValueOfNatDigits(if n < 0 then -(n as int) else n as int);
    var s := FormatInt(n);
    if n < 0 {
      assert s[1..] == NatDigits(-(n as int));
    } else {
      assert IsDigit(s[0]);
    }
  }

  /** A leading zero does not change the value of a digit string. */
  lemma {:induction false} LeadingZeroIgnored(ds: string)
    requires AllDigits(ds)
    ensures AllDigits("0" + ds) && DigitsValue("0" + ds) == DigitsValue(ds)
    decreases |ds|
  {
    if |ds| > 0 {
      var init := ds[..|ds| - 1];
      LeadingZeroIgnored(init);
      assert ("0" + ds)[..|ds|] == "0" + init;
    }
  }

  /** parseInt also accepts a '+' sign and leading zeros, e.g. "+80" and "080". */
  lemma ParseIntPlusAndLeadingZero(n: Int32)
    requires n >= 0
    ensures ParseInt("+" + FormatInt(n)) == Some(n)
    ensures ParseInt("0" + FormatInt(n)) == Some(n)
  {
    var ds := FormatInt(n);
    DigitsValueOfNatDigits(n as int);
    LeadingZeroIgnored(ds);
    assert ("+" + ds)[1..] == ds;
  }

  /** A decimal form holds neither a ':' nor a ','. */
  lemma FormatIntHasNoSeparator(n: Int32, c: char)
    requires c == ':' || c == ','
    ensures c !in FormatInt(n)
  {
    var ds := NatDigits(if n < 0 then -(n as int) else n as int);
    assert forall i :: 0 <= i < |ds| ==> ds[i] != c;
  }

  // ---------------------------------------------------------------------------
  // Enum.valueOf

  /**
   * Enum.valueOf for an enum whose constants are named `symbols`: the
   * constant whose name is exactly `name`, or IllegalArgumentException
   * (here: None).
   */
  function EnumValueOf(symbols: set<string>, name: string): Option<string> {
    if name in symbols then Some(name) else None
  }
}
