/**
  The footer's year substitution, `innerHTML.replace('2024', currentYear)`:
  only the first occurrence of "2024" is replaced, by the decimal digits of
  the year.
 */
module Footer {
  import opened Wrappers

  /** `pat` occurs in `s` starting at `i`. */
  predicate OccursAt(s: string, pat: string, i: nat) {
    i + |pat| <= |s| && s[i..i + |pat|] == pat
  }

  /** Index of the first occurrence of `pat` in `s` at or after `from`. */
  function IndexOfFrom(s: string, pat: string, from: nat): (r: Option<nat>)
    requires from <= |s|
    ensures r.Some? ==> from <= r.value && OccursAt(s, pat, r.value)
    ensures r.Some? ==> forall j :: from <= j < r.value ==> !OccursAt(s, pat, j)
    ensures r.None? ==> forall j :: from <= j <= |s| ==> !OccursAt(s, pat, j)
    decreases |s| - from
  {
    if OccursAt(s, pat, from) then Some(from)
    else if from == |s| then None
    else IndexOfFrom(s, pat, from + 1)
  }

  /** `String.prototype.indexOf`: the first occurrence, or `None`. */
  function IndexOf(s: string, pat: string): (r: Option<nat>)
    ensures r.Some? ==> OccursAt(s, pat, r.value) && forall j :: 0 <= j < r.value ==> !OccursAt(s, pat, j)
    ensures r.None? ==> forall j :: 0 <= j <= |s| ==> !OccursAt(s, pat, j)
  {
    IndexOfFrom(s, pat, 0)
  }

  /** `String.prototype.replace` with a string pattern and a replacement that
      holds no `$`: the first occurrence is replaced and the rest of the
      string is kept as it was; with no occurrence the string is unchanged. */
  function ReplaceFirst(s: string, pat: string, rep: string): (r: string)
    ensures (forall j :: 0 <= j <= |s| ==> !OccursAt(s, pat, j)) ==> r == s
    ensures forall i ::
      (0 <= i <= |s| && OccursAt(s, pat, i) && forall j :: 0 <= j < i ==> !OccursAt(s, pat, j)) ==>
      r == s[..i] + rep + s[i + |pat|..]
  {
    match IndexOf(s, pat)
    case None => s
    case Some(i) => s[..i] + rep + s[i + |pat|..]
  }

  /** Replacing an occurrence by itself leaves the string as it was. */
  lemma ReplaceBySelf(s: string, pat: string)
    ensures ReplaceFirst(s, pat, pat) == s
  {
    match IndexOf(s, pat) {
      case None =>
      case Some(i) =>
        assert s == s[..i] + s[i..i + |pat|] + s[i + |pat|..];
    }
  }

  function DigitChar(d: nat): char
    requires d < 10
  {
    "0123456789"[d]
  }

  /** JavaScript's conversion of a non-negative integer to a string: its
      decimal digits, most significant first, with no leading zero. */
  function Decimal(n: nat): (r: string)
    ensures r != []
    ensures forall i :: 0 <= i < |r| ==> '0' <= r[i] <= '9'
    ensures |r| > 1 ==> r[0] != '0'
  {
    if n < 10 then [DigitChar(n)] else Decimal(n / 10) + [DigitChar(n % 10)]
  }

  /** Reads a string of decimal digits back as a number. */
  function ParseDecimal(s: string): nat
    requires forall i :: 0 <= i < |s| ==> '0' <= s[i] <= '9'
  {
    if s == [] then 0 else 10 * ParseDecimal(s[..|s| - 1]) + (s[|s| - 1] as int - '0' as int)
  }

  /** The digits name the year they came from. */
  lemma {:induction false} DecimalRoundTrip(n: nat)
    ensures ParseDecimal(Decimal(n)) == n
  {
    var r := Decimal(n);
    if n < 10 {
      DigitValue(n);
      assert r[..0] == [];
    } else {
      DecimalRoundTrip(n / 10);
      DigitValue(n % 10);
      assert r[..|r| - 1] == Decimal(n / 10);
      assert r[|r| - 1] == DigitChar(n % 10);
    }
  }

  lemma DigitValue(d: nat)
    requires d < 10
    ensures DigitChar(d) as int - '0' as int == d
  {
  }

  const PlaceholderYear := "2024"

  /** The footer text after the year substitution. */
  function FooterText(text: string, year: nat): (r: string)
    ensures (forall j :: 0 <= j <= |text| ==> !OccursAt(text, PlaceholderYear, j)) ==> r == text
    ensures forall i ::
      (0 <= i <= |text| && OccursAt(text, PlaceholderYear, i)
       && forall j :: 0 <= j < i ==> !OccursAt(text, PlaceholderYear, j)) ==>
      r == text[..i] + Decimal(year) + text[i + 4..]
  {
    ReplaceFirst(text, PlaceholderYear, Decimal(year))
  }

  /** In 2024 the footer is left as written. */
  lemma FooterIn2024(text: string)
    ensures FooterText(text, 2024) == text
  {
    assert Decimal(2024) == "2024" by {
      assert Decimal(2) == "2";
      assert Decimal(20) == "20";
      assert Decimal(202) == "202";
    }
    ReplaceBySelf(text, PlaceholderYear);
  }

  lemma DecimalOf2026()
    ensures Decimal(2026) == "2026"
  {
    assert Decimal(2) == "2";
    assert Decimal(20) == "20";
    assert Decimal(202) == "202";
  }

  /** Only the first "2024" is replaced: "2024-2024" becomes "2026-2024". */
  lemma OnlyFirstReplaced()
    ensures FooterText("2024-2024", 2026) == "2026-2024"
  {
    var text := "2024-2024";
    DecimalOf2026();
    assert OccursAt(text, PlaceholderYear, 0);
    assert IndexOf(text, PlaceholderYear) == Some(0);
    assert text[..0] + "2026" + text[4..] == "2026-2024";
  }
}
