/**
 * The null classifier: whether an already-stripped cell value counts as
 * absent. The empty string always does; in strict mode the four sentinel
 * spellings NULL, NA, NAN and NONE do too, in any letter case.
 */
module Nulls {
  import opened Text

  const StrictNullTokens: set<string> := {"NULL", "NA", "NAN", "NONE"}

  /** `v` spells the upper-case word `t` with each letter in either case. */
  predicate CaseVariant(v: string, t: string)
  {
    && |v| == |t|
    && forall k :: 0 <= k < |t| ==> v[k] == t[k] || v[k] as int == t[k] as int + 32
  }

  predicate IsUpperWord(t: string)
  {
    forall k :: 0 <= k < |t| ==> 'A' <= t[k] <= 'Z'
  }

  /** For an upper-case word, upper-casing `v` yields it exactly when `v` is a case variant of it. */
  lemma UpperMatchesCaseVariant(v: string, t: string)
    requires IsUpperWord(t)
    ensures Upper(v) == t <==> CaseVariant(v, t)
  {
    if Upper(v) == t {
      forall k | 0 <= k < |t| ensures v[k] == t[k] || v[k] as int == t[k] as int + 32 {
        assert UpperChar(v[k]) == t[k];
      }
    }
    if CaseVariant(v, t) {
      forall k | 0 <= k < |t| ensures Upper(v)[k] == t[k] {
        assert v[k] == t[k] || v[k] as int == t[k] as int + 32;
      }
    }
  }

  /** The strict-mode sentinels are recognised exactly up to letter case. */
  lemma SentinelIsCaseInsensitive(v: string)
    ensures Upper(v) in StrictNullTokens <==> exists t :: t in StrictNullTokens && CaseVariant(v, t)
  {
    forall t | t in StrictNullTokens ensures Upper(v) == t <==> CaseVariant(v, t) {
      UpperMatchesCaseVariant(v, t);
    }
  }

  /** `is_effectively_null(value, strict_nulls)`. */
  function IsEffectivelyNull(value: string, strictNulls: bool): (isNull: bool)
    ensures value == "" ==> isNull
    ensures !strictNulls ==> (isNull <==> value == "")
  {
    value == "" || (strictNulls && Upper(value) in StrictNullTokens)
  }

  /**
   * In strict mode a value is null exactly when it is empty or spells one of
   * the four sentinels in any mix of letter cases; every null value is short.
   */
  lemma StrictNullsCharacterized(value: string)
    ensures IsEffectivelyNull(value, true) <==>
              value == "" || exists t :: t in StrictNullTokens && CaseVariant(value, t)
    ensures IsEffectivelyNull(value, true) ==> |value| <= 4
  {
    SentinelIsCaseInsensitive(value);
  }

  /** Without strict mode only the empty value is null, whatever it spells. */
  lemma LenientNullExamples()
    ensures IsEffectivelyNull("", false)
    ensures !IsEffectivelyNull("NA", false) && !IsEffectivelyNull("na", false) && !IsEffectivelyNull("NULL", false)
  {
  }

  /** In strict mode the sentinels are null in any letter case; near misses are not. */
  lemma StrictNullExamples()
    ensures IsEffectivelyNull("", true) && IsEffectivelyNull("NA", true)
    ensures IsEffectivelyNull("na", true) && IsEffectivelyNull("nOnE", true) && IsEffectivelyNull("Nan", true)
    ensures !IsEffectivelyNull("N/A", true) && !IsEffectivelyNull("NUL", true)
  {
    assert Upper("NA") == "NA";
    assert Upper("na") == "NA";
    assert Upper("nOnE") == "NONE";
    assert Upper("Nan") == "NAN";
    assert Upper("N/A") == "N/A" && "N/A" != "NAN" by { assert "N/A"[1] == '/'; }
    assert Upper("NUL") == "NUL" && "NUL" != "NAN" by { assert "NUL"[1] == 'U'; }
  }

  /**
   * A cell of blanks is null once stripped, in either mode; without strict
   * mode these are the only null cells.
   */
  lemma BlankCellIsNull(s: string, strictNulls: bool)
    ensures AllSpace(s) ==> IsEffectivelyNull(Strip(s), strictNulls)
    ensures IsEffectivelyNull(Strip(s), false) <==> AllSpace(s)
  {
    StripEmptyIffAllSpace(s);
  }
}
