/**
 The format rules for PINs and passwords, as specification predicates and
 as the character-scanning checks the program runs.
 Character classes are those of the C locale: ASCII only.
 */
module Validators {
  import opened BankTypes

  predicate IsDigit(c: char) { '0' <= c <= '9' }
  predicate IsUpper(c: char) { 'A' <= c <= 'Z' }
  predicate IsLower(c: char) { 'a' <= c <= 'z' }

  /** A PIN is exactly four decimal digits. */
  predicate IsPin(s: string) {
    |s| == PIN_LENGTH && forall i :: 0 <= i < |s| ==> IsDigit(s[i])
  }

  predicate HasUpper(s: string) { exists i :: 0 <= i < |s| && IsUpper(s[i]) }
  predicate HasLower(s: string) { exists i :: 0 <= i < |s| && IsLower(s[i]) }
  predicate HasDigit(s: string) { exists i :: 0 <= i < |s| && IsDigit(s[i]) }

  /**
   A password is exactly eight characters with at least one upper-case
   letter, one lower-case letter and one digit; other characters are
   allowed and belong to no class.
   */
  predicate IsPassword(s: string) {
    |s| == PASSWORD_LENGTH && HasUpper(s) && HasLower(s) && HasDigit(s)
  }

  /** The length check, then a scan that rejects at the first non-digit. */
  method ValidatePin(pin: string) returns (ok: bool)
    ensures ok <==> IsPin(pin)
  {
    if |pin| != PIN_LENGTH {
      return false;
    }
    for i := 0 to PIN_LENGTH
      invariant forall j :: 0 <= j < i ==> IsDigit(pin[j])
    {
      if !IsDigit(pin[i]) {
        return false;
      }
    }
    return true;
  }

  /**
   The length check, then one pass that sets a flag per character class;
   a character is tested as upper-case first, then lower-case, then digit.
   */
  method ValidatePassword(password: string) returns (ok: bool)
    ensures ok <==> IsPassword(password)
  {
    var len := |password|;
    if len < 8 || len > PASSWORD_LENGTH {
      return false;
    }
    var hasUpper, hasLower, hasDigit := false, false, false;
    for i := 0 to len
      invariant hasUpper <==> exists j :: 0 <= j < i && IsUpper(password[j])
      invariant hasLower <==> exists j :: 0 <= j < i && IsLower(password[j])
      invariant hasDigit <==> exists j :: 0 <= j < i && IsDigit(password[j])
    {
      if IsUpper(password[i]) {
        hasUpper := true;
      } else if IsLower(password[i]) {
        hasLower := true;
      } else if IsDigit(password[i]) {
        hasDigit := true;
      }
    }
    return hasUpper && hasLower && hasDigit;
  }
}
