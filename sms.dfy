/** The number rewrite `TwilioSMS.send` applies before sending: numbers
    without an international prefix are taken to be German. */
module Sms {

  /** A number that does not start with `+` gets the German country code
      `+49`, replacing a leading trunk `0`; the empty number and numbers
      already starting with `+` pass unchanged. */
  function NormalizePhone(to: string): (r: string)
    ensures r == "" <==> to == ""
    ensures r != "" ==> r[0] == '+'
    ensures to != "" && to[0] == '+' ==> r == to
    ensures to != "" && to[0] != '+' ==> |r| >= 3 && r[..3] == "+49"
    ensures to != "" && to[0] != '+' ==> r[3..] == (if to[0] == '0' then to[1..] else to)
  {
    if to != "" && to[0] != '+' then
      if to[0] == '0' then "+49" + to[1..] else "+49" + to
    else to
  }

  /** Rewriting a rewritten number changes nothing. */
  lemma NormalizePhoneIdempotent(to: string)
    ensures NormalizePhone(NormalizePhone(to)) == NormalizePhone(to)
  {
  }

  /** The national form with the trunk `0` and the form without it give
      the same number. */
  lemma TrunkZeroIrrelevant(n: string)
    requires n != "" && n[0] != '+' && n[0] != '0'
    ensures NormalizePhone("0" + n) == NormalizePhone(n)
  {
    assert ("0" + n)[1..] == n;
  }

  /** The subscriber digits survive: the result ends with the number as
      given, less a trunk `0`. */
  lemma DigitsKept(to: string)
    requires to != ""
    ensures var rest := if to[0] == '0' then to[1..] else to;
            |rest| <= |NormalizePhone(to)|
            && NormalizePhone(to)[|NormalizePhone(to)| - |rest|..] == rest
  {
  }
}
