/** The short-code format and the random code generator. */
module Codes {

  const Uppers: string := "ABCDEFGHIJKLMNOPQRSTUVWXYZ"
  const Lowers: string := "abcdefghijklmnopqrstuvwxyz"
  const Digits: string := "0123456789"

  /** The 62 characters `generateCode` draws from, in the source's order
      (the one literal written as three for the proofs below). */
  const Alphabet: string := Uppers + Lowers + Digits

  /** Length of a generated code. */
  const GeneratedLength: nat := 6

  /** Bounds of the `{6,8}` repetition in the code format. */
  const MinCodeLength: nat := 6
  const MaxCodeLength: nat := 8

  /** One random draw: `Math.floor(Math.random() * 62)`, an index into `Alphabet`. */
  type Draw = i: int | 0 <= i < 62

  /** The character class `[A-Za-z0-9]`. */
  predicate IsCodeChar(c: char) {
    ('A' <= c <= 'Z') || ('a' <= c <= 'z') || ('0' <= c <= '9')
  }

  /** How many characters the greedy repetition `[A-Za-z0-9]{0,cap}` consumes
      at the start of `s`. */
  function LeadingRun(s: string, cap: nat): (n: nat)
    ensures n <= cap && n <= |s|
    ensures forall i :: 0 <= i < n ==> IsCodeChar(s[i])
    ensures n < cap && n < |s| ==> !IsCodeChar(s[n])
  {
    if cap == 0 || s == [] || !IsCodeChar(s[0]) then 0
    else 1 + LeadingRun(s[1..], cap - 1)
  }

  /** The anchored pattern `^[A-Za-z0-9]{6,8}$`: the greedy repetition takes at
      most eight characters, takes at least six, and the end anchor then has
      to meet the end of the input (giving characters back cannot help, since
      any shorter match ends before a character of the class). It holds
      exactly for strings of six to eight ASCII letters and digits. */
  predicate IsValidCode(code: string): (ok: bool)
    ensures ok <==> MinCodeLength <= |code| <= MaxCodeLength &&
                    forall i :: 0 <= i < |code| ==> IsCodeChar(code[i])
  {
    var n := LeadingRun(code, MaxCodeLength);
    MinCodeLength <= n && n == |code|
  }

  /** `generateCode(length)`, with the random draws supplied: the loop appends
      one alphabet character per draw. */
  function GenerateCode(length: nat, draws: seq<Draw>): (code: string)
    requires |draws| >= length
    ensures |code| == length
    ensures forall i :: 0 <= i < length ==> code[i] == Alphabet[draws[i]]
  {
    if length == 0 then ""
    else GenerateCode(length - 1, draws) + [Alphabet[draws[length - 1]]]
  }

  /** Every character of the alphabet belongs to the code character class. */
  lemma AlphabetIsCodeChars()
    ensures |Alphabet| == 62
    ensures forall i :: 0 <= i < |Alphabet| ==> IsCodeChar(Alphabet[i])
  {
    assert forall i :: 0 <= i < |Uppers| ==> 'A' <= Uppers[i] <= 'Z';
    assert forall i :: 0 <= i < |Lowers| ==> 'a' <= Lowers[i] <= 'z';
    assert forall i :: 0 <= i < |Digits| ==> '0' <= Digits[i] <= '9';
  }

  /** The draw that produces code character `c`: its position in `Alphabet`. */
  function DrawFor(c: char): (d: Draw)
    requires IsCodeChar(c)
    ensures Alphabet[d] == c
  {
    assert forall k :: 0 <= k < |Uppers| ==> Uppers[k] as int == 'A' as int + k;
    assert forall k :: 0 <= k < |Lowers| ==> Lowers[k] as int == 'a' as int + k;
    assert forall k :: 0 <= k < |Digits| ==> Digits[k] as int == '0' as int + k;
    if 'A' <= c <= 'Z' then c as int - 'A' as int
    else if 'a' <= c <= 'z' then 26 + (c as int - 'a' as int)
    else 52 + (c as int - '0' as int)
  }

  /** A generated code of the default length is always a valid code. */
  lemma GeneratedCodeIsValid(draws: seq<Draw>)
    requires |draws| >= GeneratedLength
    ensures IsValidCode(GenerateCode(GeneratedLength, draws))
  {
    var code := GenerateCode(GeneratedLength, draws);
    AlphabetIsCodeChars();
    forall i | 0 <= i < |code| ensures IsCodeChar(code[i]) {
      assert code[i] == Alphabet[draws[i]];
    }
  }

  /** Conversely, every valid code of the default length is the outcome of
      some sequence of draws: the generator can reach the whole code space. */
  lemma EveryCodeIsReachable(code: string)
    requires IsValidCode(code) && |code| == GeneratedLength
    ensures exists draws: seq<Draw> :: |draws| == GeneratedLength &&
              GenerateCode(GeneratedLength, draws) == code
  {
    var draws := seq(|code|, i requires 0 <= i < |code| => DrawFor(code[i]));
    assert GenerateCode(GeneratedLength, draws) == code;
  }
}
