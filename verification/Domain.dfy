// Canonical forms of the identifiers stored on machines and applications.
// Letters are ASCII: Unicode case mapping is not part of this model.
module Domain {
  import opened Wrappers

  const UNKNOWN := "UNKNOWN"

  datatype Casing = Upper | Lower

  predicate IsSpace(c: char) {
    '\t' <= c <= '\r' || (0x1c as char) <= c <= ' '
  }

  predicate InCase(casing: Casing, c: char) {
    match casing
    case Upper => !('a' <= c <= 'z')
    case Lower => !('A' <= c <= 'Z')
  }

  function Recase(casing: Casing, c: char): char {
    if InCase(casing, c) then c
    else if casing.Upper? then (c as int - 32) as char
    else (c as int + 32) as char
  }

  function RecaseAll(casing: Casing, s: string): string {
    seq(|s|, i requires 0 <= i < |s| => Recase(casing, s[i]))
  }

  function StripLeft(s: string): string {
    if s != "" && IsSpace(s[0]) then StripLeft(s[1..]) else s
  }

  function StripRight(s: string): string {
    if s != "" && IsSpace(s[|s| - 1]) then StripRight(s[..|s| - 1]) else s
  }

  function Strip(s: string): string {
    StripRight(StripLeft(s))
  }

  // A missing or blank identifier has no canonical form.
  function NormalizeOptional(value: Option<string>, casing: Casing): Option<string> {
    if value.None? || Strip(value.value) == "" then None
    else Some(RecaseAll(casing, Strip(value.value)))
  }

  function NormalizeApplicationCode(value: Option<string>): Option<string> {
    NormalizeOptional(value, Upper)
  }

  function NormalizeDimension(value: Option<string>): Option<string> {
    NormalizeOptional(value, Upper)
  }

  function NormalizeExternalId(value: Option<string>): Option<string> {
    NormalizeOptional(value, Lower)
  }

  // The record's own hostname survives when it has no canonical form.
  function NormalizeHostname(value: string): string {
    match NormalizeOptional(Some(value), Upper)
    case Some(canonical) => canonical
    case None => value
  }

  function CoalesceDimension(value: Option<string>): string {
    match NormalizeDimension(value)
    case Some(canonical) => canonical
    case None => UNKNOWN
  }

  // What a canonical identifier looks like: no outer blanks, one letter case.
  predicate IsCanonical(casing: Casing, s: string) {
    && s != ""
    && !IsSpace(s[0])
    && !IsSpace(s[|s| - 1])
    && forall i :: 0 <= i < |s| ==> InCase(casing, s[i])
  }

  lemma {:induction false} StripLeftTrims(s: string)
    ensures StripLeft(s) == "" || !IsSpace(StripLeft(s)[0])
    ensures StripLeft(s) == "" <==> forall i :: 0 <= i < |s| ==> IsSpace(s[i])
  {
    if s == "" {
    } else if IsSpace(s[0]) {
      StripLeftTrims(s[1..]);
      assert forall i :: 1 <= i < |s| ==> s[i] == s[1..][i - 1];
      if StripLeft(s[1..]) == "" {
        forall i | 0 <= i < |s| ensures IsSpace(s[i]) {
          if i > 0 { assert s[i] == s[1..][i - 1]; }
        }
      } else {
        var i :| 0 <= i < |s[1..]| && !IsSpace(s[1..][i]);
        assert !IsSpace(s[i + 1]);
      }
    }
  }

  lemma {:induction false} StripRightTrims(s: string)
    requires s != "" && !IsSpace(s[0])
    ensures StripRight(s) != "" && StripRight(s)[0] == s[0]
    ensures !IsSpace(StripRight(s)[|StripRight(s)| - 1])
  {
    if IsSpace(s[|s| - 1]) {
      StripRightTrims(s[..|s| - 1]);
    }
  }

  // Normalizing yields nothing exactly for missing or blank identifiers,
  // and otherwise a canonical one.
  lemma NormalizeIsCanonical(value: Option<string>, casing: Casing)
    ensures NormalizeOptional(value, casing).None? <==>
            value.None? || forall i :: 0 <= i < |value.value| ==> IsSpace(value.value[i])
    ensures NormalizeOptional(value, casing).Some? ==>
              IsCanonical(casing, NormalizeOptional(value, casing).value)
  {
    if value.Some? {
      StripLeftTrims(value.value);
      if StripLeft(value.value) != "" {
        StripRightTrims(StripLeft(value.value));
      }
    }
  }

  lemma CanonicalIsFixed(s: string, casing: Casing)
    requires IsCanonical(casing, s)
    ensures NormalizeOptional(Some(s), casing) == Some(s)
  {
    assert Strip(s) == s;
    assert RecaseAll(casing, s) == s;
  }

  // The stored identifiers are normalized again by every validator, so the
  // second pass has to change nothing.
  lemma NormalizeIsIdempotent(value: Option<string>, casing: Casing)
    ensures NormalizeOptional(NormalizeOptional(value, casing), casing) == NormalizeOptional(value, casing)
  {
    NormalizeIsCanonical(value, casing);
    if NormalizeOptional(value, casing).Some? {
      CanonicalIsFixed(NormalizeOptional(value, casing).value, casing);
    }
  }

  lemma NormalizeHostnameIsIdempotent(value: string)
    ensures NormalizeHostname(NormalizeHostname(value)) == NormalizeHostname(value)
  {
    NormalizeIsIdempotent(Some(value), Upper);
  }

  /* What normalizing keeps of the text */

  // The control characters TAB to CR and FS to US, and the space.
  lemma BlankMeaning(c: char)
    ensures IsSpace(c) <==> c as int in {9, 10, 11, 12, 13, 28, 29, 30, 31, 32}
  {
  }

  predicate IsUpperLetter(c: char) {
    'A' <= c <= 'Z'
  }

  predicate IsLowerLetter(c: char) {
    'a' <= c <= 'z'
  }

  // The same letter in whatever case, or the same other character.
  predicate SameLetter(c: char, d: char) {
    || c == d
    || (IsUpperLetter(c) && IsLowerLetter(d) && d as int - c as int == 32)
    || (IsLowerLetter(c) && IsUpperLetter(d) && c as int - d as int == 32)
  }

  // `result` is the text between two positions, in some letter case, with only
  // blanks around it.
  predicate IsCore(s: string, lo: nat, hi: nat, result: string) {
    && lo <= hi <= |s| && |result| == hi - lo
    && (forall i :: 0 <= i < lo ==> IsSpace(s[i]))
    && (forall i :: hi <= i < |s| ==> IsSpace(s[i]))
    && (forall i :: lo <= i < hi ==> SameLetter(s[i], result[i - lo]))
  }

  lemma {:induction false} StripLeftIsSuffix(s: string) returns (lo: nat)
    ensures lo <= |s| && StripLeft(s) == s[lo..] && forall i :: 0 <= i < lo ==> IsSpace(s[i])
  {
    if s != "" && IsSpace(s[0]) {
      lo := StripLeftIsSuffix(s[1..]);
      assert s[1..][lo..] == s[lo + 1..];
      assert forall i :: 0 <= i < lo ==> s[1..][i] == s[i + 1];
      lo := lo + 1;
    } else {
      lo := 0;
    }
  }

  lemma {:induction false} StripRightIsPrefix(s: string) returns (hi: nat)
    ensures hi <= |s| && StripRight(s) == s[..hi] && forall i :: hi <= i < |s| ==> IsSpace(s[i])
  {
    if s != "" && IsSpace(s[|s| - 1]) {
      hi := StripRightIsPrefix(s[..|s| - 1]);
      assert s[..|s| - 1][..hi] == s[..hi];
    } else {
      hi := |s|;
    }
  }

  lemma RecaseKeepsLetter(casing: Casing, c: char)
    ensures SameLetter(c, Recase(casing, c))
    ensures casing.Upper? ==> !IsLowerLetter(Recase(casing, c))
    ensures casing.Lower? ==> !IsUpperLetter(Recase(casing, c))
  {
  }

  // Normalizing only drops outer blanks and changes letter case.
  lemma NormalizeKeepsText(value: string, casing: Casing) returns (lo: nat, hi: nat)
    requires NormalizeOptional(Some(value), casing).Some?
    ensures IsCore(value, lo, hi, NormalizeOptional(Some(value), casing).value)
  {
    lo := StripLeftIsSuffix(value);
    var rest := StripLeft(value);
    var end := StripRightIsPrefix(rest);
    hi := lo + end;
    assert Strip(value) == value[lo..hi];
    forall i | lo <= i < hi ensures SameLetter(value[i], RecaseAll(casing, Strip(value))[i - lo]) {
      RecaseKeepsLetter(casing, value[i]);
    }
    forall i | hi <= i < |value| ensures IsSpace(value[i]) {
      assert value[i] == rest[i - lo];
    }
  }

  predicate NoLowerLetters(s: string) {
    forall i :: 0 <= i < |s| ==> !IsLowerLetter(s[i])
  }

  predicate NoUpperLetters(s: string) {
    forall i :: 0 <= i < |s| ==> !IsUpperLetter(s[i])
  }

  lemma RecaseAllCasing(casing: Casing, s: string)
    ensures casing.Upper? ==> NoLowerLetters(RecaseAll(casing, s))
    ensures casing.Lower? ==> NoUpperLetters(RecaseAll(casing, s))
  {
    forall i | 0 <= i < |s|
      ensures casing.Upper? ==> !IsLowerLetter(RecaseAll(casing, s)[i])
      ensures casing.Lower? ==> !IsUpperLetter(RecaseAll(casing, s)[i])
    {
      RecaseKeepsLetter(casing, s[i]);
    }
  }

  // Applications, dimensions and hostnames are stored in upper case, external
  // ids in lower case; a missing or blank dimension reads UNKNOWN.
  lemma CasingOfIdentifiers(value: string)
    ensures NormalizeApplicationCode(Some(value)).Some? ==> NoLowerLetters(NormalizeApplicationCode(Some(value)).value)
    ensures NormalizeDimension(Some(value)).Some? ==> NoLowerLetters(NormalizeDimension(Some(value)).value)
    ensures NormalizeExternalId(Some(value)).Some? ==> NoUpperLetters(NormalizeExternalId(Some(value)).value)
    ensures (exists i :: 0 <= i < |value| && !IsSpace(value[i])) ==> NoLowerLetters(NormalizeHostname(value))
    ensures (forall i :: 0 <= i < |value| ==> IsSpace(value[i])) ==>
              NormalizeHostname(value) == value && CoalesceDimension(Some(value)) == "UNKNOWN"
  {
    RecaseAllCasing(Upper, Strip(value));
    RecaseAllCasing(Lower, Strip(value));
    NormalizeIsCanonical(Some(value), Upper);
  }

  lemma CoalesceMeaning(value: Option<string>)
    ensures value.None? ==> CoalesceDimension(value) == "UNKNOWN"
    ensures NormalizeDimension(value).Some? ==> CoalesceDimension(value) == NormalizeDimension(value).value
  {
  }
}
