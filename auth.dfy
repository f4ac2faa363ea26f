/**
 * Sign-in input handling: the required-field checks, phone-number
 * normalisation, the display name offered for a new member, and the
 * profile rename.  The one-time-code and magic-link calls themselves belong
 * to the authentication provider; the model produces the request each
 * action would send.
 */
module Auth {
  import opened Common
  import opened JsText
  import opened Schema

  const EmailRequired := "Email is required"
  const PhoneRequired := "Phone number is required"
  const PhoneAndCodeRequired := "Phone and code are required"
  const DisplayNameRequired := "Display name is required"
  const ProductionSiteUrl := "https://navajomovietalkers.com"

  /** `s.replace(/\D/g, "")`: the decimal digits of `s`, in order. */
  function Digits(s: string): (d: string)
    ensures AllDigits(d) && |d| <= |s|
  {
    if s == [] then [] else (if IsDigit(s[0]) then [s[0]] else []) + Digits(s[1..])
  }

  lemma {:induction false} DigitsConcat(a: string, b: string)
    ensures Digits(a + b) == Digits(a) + Digits(b)
  {
    if a == [] {
      assert a + b == b;
    } else {
      assert (a + b)[1..] == a[1..] + b;
      DigitsConcat(a[1..], b);
    }
  }

  lemma {:induction false} DigitsOfDigits(d: string)
    requires AllDigits(d)
    ensures Digits(d) == d
  {
    if d != [] {
      DigitsOfDigits(d[1..]);
    }
  }

  /**
   * The phone number sent to the provider: the digits of the input with
   * "+1" in front when there are exactly ten of them, and "+" otherwise
   * (eleven digits starting with 1 get "+" as well).
   */
  function NormalizePhone(phone: string): (n: string)
    ensures |n| >= 1 && n[0] == '+' && AllDigits(n[1..])
  {
    var digits := Digits(phone);
    if |digits| == 10 then "+1" + digits
    else if |digits| == 11 && digits[0] == '1' then "+" + digits
    else "+" + digits
  }

  /**
   * The normalised number keeps every digit of the input in order; a
   * ten-digit number gains the country code 1, and every other input,
   * including eleven digits starting with 1, is only prefixed with "+".
   */
  lemma NormalizePhoneDigits(phone: string)
    ensures NormalizePhone(phone) ==
      if |Digits(phone)| == 10 then "+1" + Digits(phone) else "+" + Digits(phone)
  {
  }

  /** Normalising an already normalised number changes nothing. */
  lemma NormalizePhoneIdempotent(phone: string)
    ensures NormalizePhone(NormalizePhone(phone)) == NormalizePhone(phone)
  {
    var d := Digits(phone);
    var n := NormalizePhone(phone);
    DigitsOfDigits(d);
    if |d| == 10 {
      assert n == "+" + ("1" + d);
      DigitsConcat("+", "1" + d);
      DigitsOfDigits("1" + d);
      assert Digits("+") == [];
      assert Digits(n) == "1" + d;
    } else {
      assert n == "+" + d;
      DigitsConcat("+", d);
      assert Digits("+") == [];
      assert Digits(n) == d;
    }
  }

  lemma DigitsOfSeparator(c: char)
    requires !IsDigit(c)
    ensures Digits([c]) == []
  {
    assert [c][1..] == [];
  }

  /** Appending a separator and a group of digits appends just the digits. */
  lemma DigitsAppendGroup(prefix: string, sep: char, group: string)
    requires !IsDigit(sep) && AllDigits(group)
    ensures Digits(prefix + [sep] + group) == Digits(prefix) + group
  {
    DigitsConcat(prefix + [sep], group);
    DigitsConcat(prefix, [sep]);
    DigitsOfSeparator(sep);
    DigitsOfDigits(group);
  }

  /** "555-123-4567" gains the country code 1. */
  lemma NormalizeDashedUsNumber(us: string)
    requires us == "555-123-4567"
    ensures NormalizePhone(us) == "+15551234567"
  {
    var p1 := "555" + ['-'] + "123";
    DigitsOfDigits("555");
    DigitsAppendGroup("555", '-', "123");
    DigitsAppendGroup(p1, '-', "4567");
    assert us == p1 + ['-'] + "4567";
    assert Digits(us) == "5551234567";
  }

  /** "15551234567" already carries the country code and only gains "+". */
  lemma NormalizeUsNumberWithCode(us: string)
    requires us == "15551234567"
    ensures NormalizePhone(us) == "+15551234567"
  {
    assert AllDigits(us);
    DigitsOfDigits(us);
  }

  /** A number written as "+", then groups of digits separated by spaces, keeps its digits behind "+". */
  lemma NormalizeSpacedNumber(p: string, a: string, b: string, c: string, d: string)
    requires AllDigits(a) && AllDigits(b) && AllDigits(c) && AllDigits(d)
    requires |a + b + c + d| != 10
    requires p == "+" + a + " " + b + " " + c + " " + d
    ensures NormalizePhone(p) == "+" + a + b + c + d
  {
    DigitsConcat(['+'], a);
    DigitsOfSeparator('+');
    DigitsOfDigits(a);
    var p0 := ['+'] + a;
    var p1 := p0 + [' '] + b;
    var p2 := p1 + [' '] + c;
    assert Digits(p0) == a;
    DigitsAppendGroup(p0, ' ', b);
    assert Digits(p1) == a + b;
    DigitsAppendGroup(p1, ' ', c);
    assert Digits(p2) == a + b + c;
    DigitsAppendGroup(p2, ' ', d);
    assert p == p2 + [' '] + d;
    assert Digits(p) == a + b + c + d;
    assert |Digits(p)| != 10;
  }

  /** "+44 20 7946 0958" keeps its twelve digits behind "+". */
  lemma NormalizeInternationalNumber(uk: string)
    requires uk == "+44 20 7946 0958"
    ensures NormalizePhone(uk) == "+442079460958"
  {
    NormalizeSpacedNumber(uk, "44", "20", "7946", "0958");
  }

  /**
   * `displayName?.trim() || fallback`: the trimmed name when one was given
   * and it is not blank, the fallback otherwise.
   */
  function EffectiveDisplayName(displayName: Option<string>, fallback: string): (name: string)
    ensures name == fallback || (displayName.Some? && name == Trim(displayName.value) && name != [])
  {
    if displayName.Some? && Trim(displayName.value) != [] then Trim(displayName.value) else fallback
  }

  /** A name made only of white space counts as no name. */
  lemma BlankDisplayNameFallsBack(displayName: string, fallback: string)
    requires forall i :: 0 <= i < |displayName| ==> IsJsSpace(displayName[i])
    ensures EffectiveDisplayName(Some(displayName), fallback) == fallback
  {
  }

  /** A given name is used without its surrounding white space. */
  lemma PaddedDisplayNameIsTrimmed(space: string, name: string, space2: string, fallback: string)
    requires forall i :: 0 <= i < |space| ==> IsJsSpace(space[i])
    requires forall i :: 0 <= i < |space2| ==> IsJsSpace(space2[i])
    requires name != [] && !IsJsSpace(name[0]) && !IsJsSpace(name[|name| - 1])
    ensures EffectiveDisplayName(Some(space + name + space2), fallback) == name
  {
    var s := space + name + space2;
    assert s == space + (name + space2);
    TrimStartSkips(space, name + space2);
    assert TrimStart(s) == name + space2;
    TrimEndSkips(name, space2);
    assert Trim(s) == name;
  }

  lemma {:induction false} TrimEndSkips(s: string, space: string)
    requires forall i :: 0 <= i < |space| ==> IsJsSpace(space[i])
    requires s == [] || !IsJsSpace(s[|s| - 1])
    ensures TrimEnd(s + space) == s
  {
    if space == [] {
      assert s + space == s;
    } else {
      assert (s + space)[..|s + space| - 1] == s + space[..|space| - 1];
      TrimEndSkips(s, space[..|space| - 1]);
    }
  }

  /** `email.split("@")[0]`: the text before the first "@". */
  function EmailLocalPart(email: string): (local: string)
    ensures '@' !in local && StartsWith(email, local)
    ensures |local| < |email| ==> email[|local|] == '@'
  {
    SplitFirstIsFirstPiece(email, '@');
    Split(email, '@')[0]
  }

  /** The sign-in email request: where the link leads, and the name stored for a new member. */
  datatype MagicLinkRequest = MagicLinkRequest(email: string, emailRedirectTo: string, displayName: string)

  /** The one-time-code request for a phone number. */
  datatype PhoneOtpRequest = PhoneOtpRequest(phone: string, displayName: string)

  /** The site URL from the environment, or the production domain when unset or empty. */
  function SiteUrl(configured: Option<string>): string {
    if configured.Some? && configured.value != [] then configured.value else ProductionSiteUrl
  }

  /**
   * `signInWithMagicLink`: an empty or missing email is refused; otherwise
   * the link returns to the site's callback page and a new member is named
   * by the given name or, failing that, by the part of the email before "@".
   */
  function MagicLinkSignIn(email: Option<string>, displayName: Option<string>, siteUrl: Option<string>)
    : (r: Checked<MagicLinkRequest>)
    ensures r.Rejected? <==> email.None? || email.value == []
    ensures r.Rejected? ==> r.message == EmailRequired
    ensures r.Accepted? ==>
      && r.value.email == email.value
      && r.value.emailRedirectTo == SiteUrl(siteUrl) + "/auth/callback"
      && r.value.displayName == EffectiveDisplayName(displayName, EmailLocalPart(email.value))
  {
    if email.None? || email.value == [] then Rejected(EmailRequired)
    else
      Accepted(MagicLinkRequest(email.value, SiteUrl(siteUrl) + "/auth/callback",
        EffectiveDisplayName(displayName, EmailLocalPart(email.value))))
  }

  /**
   * The decision part of `sendPhoneOtp`: an empty phone is refused; any
   * other text, even one without digits, is normalised and sent, and a new
   * member is named by the given name or, failing that, by the number.
   */
  function PhoneOtpSignIn(phone: string, displayName: Option<string>): (r: Checked<PhoneOtpRequest>)
    ensures r.Rejected? <==> phone == []
    ensures r.Rejected? ==> r.message == PhoneRequired
    ensures r.Accepted? ==>
      && r.value.phone == NormalizePhone(phone)
      && r.value.displayName == EffectiveDisplayName(displayName, r.value.phone)
  {
    if phone == [] then Rejected(PhoneRequired)
    else
      var normalized := NormalizePhone(phone);
      Accepted(PhoneOtpRequest(normalized, EffectiveDisplayName(displayName, normalized)))
  }

  /** Text without a single digit is not refused: it becomes the bare "+". */
  lemma PhoneWithoutDigits(phone: string)
    requires phone != [] && forall i :: 0 <= i < |phone| ==> !IsDigit(phone[i])
    ensures PhoneOtpSignIn(phone, None) == Accepted(PhoneOtpRequest("+", "+"))
  {
    assert Digits(phone) == [] by { NoDigits(phone); }
    assert "+" + [] == "+";
  }

  lemma {:induction false} NoDigits(s: string)
    requires forall i :: 0 <= i < |s| ==> !IsDigit(s[i])
    ensures Digits(s) == []
  {
    if s != [] { NoDigits(s[1..]); }
  }

  /** The check of `verifyPhoneOtp`: both the number and the code must be non-empty. */
  function VerifyOtpInput(phone: string, code: string): (error: Option<string>)
    ensures error.None? <==> phone != [] && code != []
    ensures error.Some? ==> error.value == PhoneAndCodeRequired
  {
    if phone == [] || code == [] then Some(PhoneAndCodeRequired) else None
  }

  /** The profiles with the display name of the member `id` replaced. */
  function Renamed(profiles: seq<Profile>, id: UserId, name: string): (r: seq<Profile>)
    ensures |r| == |profiles|
    ensures forall i :: 0 <= i < |r| && profiles[i].id != id ==> r[i] == profiles[i]
    ensures forall i :: 0 <= i < |r| && profiles[i].id == id ==>
      r[i].displayName == name && r[i].(displayName := profiles[i].displayName) == profiles[i]
  {
    seq(|profiles|, i requires 0 <= i < |profiles| =>
      if profiles[i].id == id then profiles[i].(displayName := name) else profiles[i])
  }

  /** The `profiles` table, which `updateProfile` changes in place. */
  class ProfilesTable {
    var profiles: seq<Profile>

    constructor (profiles: seq<Profile>)
      ensures this.profiles == profiles
    {
      this.profiles := profiles;
    }

    /**
     * `updateProfile`: a missing or empty name is refused before the
     * session is looked at; then an anonymous caller is refused; otherwise
     * only the caller's own row gets the new name, exactly as given (it is
     * not trimmed).  A failed write leaves the table as it was.
     */
    method UpdateProfile(displayName: Option<string>, user: Option<UserId>, writeError: Option<string>)
      returns (r: ActionResult)
      modifies this
      ensures displayName.None? || displayName.value == [] ==>
        r == Err(DisplayNameRequired) && profiles == old(profiles)
      ensures displayName.Some? && displayName.value != [] && user.None? ==>
        r == Err(NotAuthenticated) && profiles == old(profiles)
      ensures displayName.Some? && displayName.value != [] && user.Some? && writeError.Some? ==>
        r == Err(writeError.value) && profiles == old(profiles)
      ensures displayName.Some? && displayName.value != [] && user.Some? && writeError.None? ==>
        r == Ok && profiles == Renamed(old(profiles), user.value, displayName.value)
    {
      if displayName.None? || displayName.value == [] {
        return Err(DisplayNameRequired);
      }
      if user.None? {
        return Err(NotAuthenticated);
      }
      if writeError.Some? {
        return Err(writeError.value);
      }
      profiles := Renamed(profiles, user.value, displayName.value);
      r := Ok;
    }
  }
}
