/**
 * The two field formats the server enforces with regular expressions
 * (server/server.js lines 30, 72, 271 and 349), and JavaScript truthiness
 * of a request field.
 */
module Rules {
  import opened Wrappers
  import opened Text

  /** The character classes of the two patterns: `\d` and `[A-Za-z0-9\s-]`. */
  datatype CharClass = Digit | PinChar

  predicate InClass(cls: CharClass, c: char) {
    match cls
    case Digit => IsAsciiDigit(c)
    case PinChar => IsAsciiLetter(c) || IsAsciiDigit(c) || IsJsWhitespace(c) || c == '-'
  }

  /**
   * Whether the anchored pattern `^[cls]{lo,hi}$` matches `s`, consuming one
   * character at a time as a backtracking-free matcher does.
   */
  function MatchesRepeat(cls: CharClass, lo: nat, hi: nat, s: string): bool
    decreases |s|
  {
    if s == [] then lo == 0
    else hi > 0 && InClass(cls, s[0]) && MatchesRepeat(cls, if lo == 0 then 0 else lo - 1, hi - 1, s[1..])
  }

  /** The matcher accepts exactly the strings of length lo..hi drawn from the class. */
  lemma {:induction false} MatchesRepeatSpec(cls: CharClass, lo: nat, hi: nat, s: string)
    ensures MatchesRepeat(cls, lo, hi, s) <==> lo <= |s| <= hi && forall i :: 0 <= i < |s| ==> InClass(cls, s[i])
    decreases |s|
  {
    if s != [] && hi > 0 {
      MatchesRepeatSpec(cls, if lo == 0 then 0 else lo - 1, hi - 1, s[1..]);
      assert forall i :: 1 <= i < |s| ==> s[i] == s[1..][i - 1];
    }
  }

  /** `/^\d{10}$/.test(s)` */
  predicate PhoneRule(s: string) {
    MatchesRepeat(Digit, 10, 10, s)
  }

  /** `/^[A-Za-z0-9\s-]{3,10}$/.test(s)` */
  predicate PinRule(s: string) {
    MatchesRepeat(PinChar, 3, 10, s)
  }

  /** A phone number passes exactly when it is ten ASCII digits. */
  lemma PhoneRuleSpec(s: string)
    ensures PhoneRule(s) <==> |s| == 10 && forall i :: 0 <= i < |s| ==> IsAsciiDigit(s[i])
  {
    MatchesRepeatSpec(Digit, 10, 10, s);
  }

  /** A pin code passes exactly when it has 3 to 10 letters, digits, white space or dashes. */
  lemma PinRuleSpec(s: string)
    ensures PinRule(s) <==> 3 <= |s| <= 10 && forall i :: 0 <= i < |s| ==> InClass(PinChar, s[i])
  {
    MatchesRepeatSpec(PinChar, 3, 10, s);
  }

  /** Ten digits make a phone number ... */
  lemma PhoneAcceptsTenDigits()
    ensures PhoneRule("9876543210")
  {
    var s := "9876543210";
    assert |s| == 10;
    forall i | 0 <= i < |s| ensures IsAsciiDigit(s[i]) {
    }
    PhoneRuleSpec(s);
  }

  /** ... nine or eleven do not ... */
  lemma PhoneRejectsWrongLength()
    ensures !PhoneRule("987654321") && !PhoneRule("98765432100")
  {
    PhoneRuleSpec("987654321");
    PhoneRuleSpec("98765432100");
  }

  /** ... nor does a separator. */
  lemma PhoneRejectsDash()
    ensures !PhoneRule("98765-4321")
  {
    PhoneRuleSpec("98765-4321");
    assert "98765-4321"[5] == '-';
  }

  /** Pin codes of digits and a space pass ... */
  lemma PinAcceptsSpace()
    ensures PinRule("560 001")
  {
    var s := "560 001";
    forall i | 0 <= i < |s| ensures InClass(PinChar, s[i]) {
    }
    PinRuleSpec(s);
  }

  /** ... as do letters, digits and a dash ... */
  lemma PinAcceptsDash()
    ensures PinRule("SW1A-1AA")
  {
    var s := "SW1A-1AA";
    forall i | 0 <= i < |s| ensures InClass(PinChar, s[i]) {
    }
    PinRuleSpec(s);
  }

  /** ... two or eleven characters do not ... */
  lemma PinRejectsWrongLength()
    ensures !PinRule("ab") && !PinRule("12345678901")
  {
    PinRuleSpec("ab");
    PinRuleSpec("12345678901");
  }

  /** ... nor does a `#`. */
  lemma PinRejectsHash()
    ensures !PinRule("12#45")
  {
    PinRuleSpec("12#45");
    assert "12#45"[2] == '#';
  }

  /** A request field is truthy in JavaScript when it is present and not the empty string. */
  predicate Truthy(f: Option<string>) {
    f.Some? && f.value != []
  }
}
