/**
 * utils/geo.py: the postal code of an address, i.e. the regex search
 * \b(\d{5})\b over str(adresse), written out as a left-to-right scan.
 */
module Geo {
  import opened Text
  import opened Values

  /**
   * \b(\d{5})\b matches at i: five digits, and neither neighbour is a word
   * character. Digits are word characters, so \b on each side means the
   * neighbour is absent or a non-word character.
   */
  predicate CodeAt(s: string, i: int) {
    && 0 <= i && i + 5 <= |s|
    && AllDigits(s[i..i + 5])
    && (i == 0 || !IsWordChar(s[i - 1]))
    && (i + 5 == |s| || !IsWordChar(s[i + 5]))
  }

  /** re.search: the first position at or after i where the pattern matches. */
  function FirstCodeFrom(s: string, i: nat): (r: Option<nat>)
    requires i <= |s|
    ensures r.Some? ==> i <= r.value && CodeAt(s, r.value)
    ensures r.Some? ==> forall j :: i <= j < r.value ==> !CodeAt(s, j)
    ensures r.None? ==> forall j :: i <= j ==> !CodeAt(s, j)
    decreases |s| - i
  {
    if i + 5 > |s| then None
    else if CodeAt(s, i) then Some(i)
    else FirstCodeFrom(s, i + 1)
  }

  /** The first word-bounded run of exactly five digits in s. */
  function PostalCodeIn(s: string): (r: Option<string>)
    ensures r.Some? ==> exists i :: CodeAt(s, i) && r.value == s[i..i + 5] && forall j :: 0 <= j < i ==> !CodeAt(s, j)
    ensures r.None? <==> forall j :: !CodeAt(s, j)
  {
    match FirstCodeFrom(s, 0)
    case None => None
    case Some(i) => Some(s[i..i + 5])
  }

  /** extract_code_postal: None for a missing address, else the search on str(adresse). */
  function ExtractCodePostal(adresse: Value): Option<string> {
    if adresse.Missing? then None else PostalCodeIn(AsText(adresse))
  }

  /** A missing address has no postal code. */
  lemma MissingAddressGivesNone()
    ensures ExtractCodePostal(Missing) == None
  {
  }

  /** A result is five decimal digits copied out of str(adresse). */
  lemma ResultShape(adresse: Value)
    requires ExtractCodePostal(adresse).Some?
    ensures var c := ExtractCodePostal(adresse).value;
      && |c| == 5 && AllDigits(c) && Contains(AsText(adresse), c)
  {
    var s := AsText(adresse);
    var i :| CodeAt(s, i) && ExtractCodePostal(adresse).value == s[i..i + 5];
    assert ExtractCodePostal(adresse).value <= s[i..];
  }

  /** A run of six digits or more yields no code starting inside it except past its end. */
  lemma {:induction false} LongRunRejected(s: string, i: nat)
    requires i + 6 <= |s| && AllDigits(s[i..i + 6])
    ensures !CodeAt(s, i) && !CodeAt(s, i + 1)
  {
    assert IsDigit(s[i..i + 6][5]) && IsDigit(s[i..i + 6][0]);
  }

  /** A run touching a letter, digit or underscore on either side is not a match. */
  lemma {:induction false} AdjacentWordCharRejected(s: string, i: nat)
    requires i + 5 <= |s|
    requires (i > 0 && IsWordChar(s[i - 1])) || (i + 5 < |s| && IsWordChar(s[i + 5]))
    ensures !CodeAt(s, i)
  {
  }

  /** When several runs qualify, the earliest one is returned. */
  lemma FirstMatchWins(adresse: Value, i: nat)
    requires !adresse.Missing?
    requires CodeAt(AsText(adresse), i)
    requires forall j :: 0 <= j < i ==> !CodeAt(AsText(adresse), j)
    ensures ExtractCodePostal(adresse) == Some(AsText(adresse)[i..i + 5])
  {
    var s := AsText(adresse);
    var r := FirstCodeFrom(s, 0);
  }

  /** An address whose only qualifying run sits at i yields exactly that run. */
  lemma UniqueRunFound(adresse: Value, i: nat)
    requires !adresse.Missing?
    requires CodeAt(AsText(adresse), i)
    requires forall j :: CodeAt(AsText(adresse), j) ==> j == i
    ensures ExtractCodePostal(adresse) == Some(AsText(adresse)[i..i + 5])
  {
    FirstMatchWins(adresse, i);
  }

  /** An address carrying one postal code. */
  lemma ParisExample()
    ensures ExtractCodePostal(Str("12" + " Rue de Paris, " + "75010" + " Paris")) == Some("75010")
  {
    var head, gap, code, tail := "12", " Rue de Paris, ", "75010", " Paris";
    var s := head + gap + code + tail;
    assert s[17..22] == code;
    assert CodeAt(s, 17);
    forall j | 0 <= j < 17 ensures !CodeAt(s, j) {
      var k := if j < 2 then 2 else j;
      assert s[k] == gap[k - 2];
      assert s[j..j + 5][k - j] == s[k];
    }
    FirstMatchWins(Str(s), 17);
    assert s[17..22] == "75010";
  }
}
