/**
 * `parse_message`: the record the bot builds from the text of a bank
 * message. The amount is `parse_amount` of the whole text, the currency is
 * always roubles, the type is credit when an income keyword occurs in any
 * letter case, and the description is the first merchant the description
 * patterns capture, or else the first line of the text.
 */
module Message {
  import opened Wrappers
  import opened Chars
  import opened Amount

  datatype Kind = Debit | Credit

  datatype ParsedMessage = ParsedMessage(kind: Kind, amount: Option<nat>, currency: string, description: string)

  /** The words that make a message a credit: credited, top-up, refund, salary. */
  const CreditKeywords: seq<string> := ["зачислен", "пополнение", "возврат", "зарплата"]

  /** The capital of a lower-case Russian letter а–я; other characters unchanged. */
  function UpperCyrillic(c: char): char
  {
    if 'а' <= c <= 'я' then ((c as int) - 0x20) as char else c
  }

  /** Under `re.IGNORECASE`, the text character `c` matches the lower-case pattern character `k`. */
  predicate SameLetter(c: char, k: char)
  {
    c == k || c == UpperCyrillic(k)
  }

  /** The keyword occurs in `text` at position `i`, ignoring case. */
  predicate OccursAt(text: string, i: nat, keyword: string)
  {
    i + |keyword| <= |text| && forall j :: 0 <= j < |keyword| ==> SameLetter(text[i + j], keyword[j])
  }

  predicate IsCreditAt(text: string, i: nat)
  {
    exists k :: 0 <= k < |CreditKeywords| && OccursAt(text, i, CreditKeywords[k])
  }

  /** `re.search` of the keyword alternation, from position `i` on. */
  function CreditKeywordFrom(text: string, i: nat): (found: bool)
    requires i <= |text|
    ensures found <==> exists p :: i <= p <= |text| && IsCreditAt(text, p)
    decreases |text| - i
  {
    if IsCreditAt(text, i) then true
    else if i == |text| then false
    else
      var found := CreditKeywordFrom(text, i + 1);
      assert forall p :: i <= p <= |text| && IsCreditAt(text, p) ==> p == i || i + 1 <= p;
      found
  }

  function HasCreditKeyword(text: string): bool
  {
    CreditKeywordFrom(text, 0)
  }

  /** What a description pattern's capture becomes: `.strip().rstrip('.').strip()`. */
  function CleanCapture(g: string): (d: string)
    ensures d == [] || (!IsSpace(d[0]) && !IsSpace(d[|d| - 1]))
  {
    Strip(RStripChar(Strip(g), '.'))
  }

  /** The description taken from the first pattern that matched, or "" when none did. */
  function CapturedDescription(captures: seq<Option<string>>): (d: string)
    ensures (forall i :: 0 <= i < |captures| ==> captures[i].None?) ==> d == []
  {
    if captures == [] then ""
    else if captures[0].Some? then CleanCapture(captures[0].value)
    else CapturedDescription(captures[1..])
  }

  /** The description is the cleaned capture of the first pattern that matched. */
  lemma {:induction false} CapturedDescriptionIsFirst(captures: seq<Option<string>>, i: int)
    requires FirstCapture(captures, i)
    ensures CapturedDescription(captures) == CleanCapture(captures[i].value)
  {
    if i > 0 {
      FirstCaptureShift(captures, i);
      CapturedDescriptionIsFirst(captures[1..], i - 1);
    }
  }

  /** Pattern `i` is the first one that matched. */
  predicate FirstCapture(captures: seq<Option<string>>, i: int)
  {
    0 <= i < |captures| && captures[i].Some? && forall j :: 0 <= j < i ==> captures[j].None?
  }

  lemma FirstCaptureShift(captures: seq<Option<string>>, i: int)
    requires FirstCapture(captures, i) && i > 0
    ensures FirstCapture(captures[1..], i - 1) && captures[1..][i - 1] == captures[i]
  {
    forall j | 0 <= j < i - 1
      ensures captures[1..][j].None?
    {
      assert captures[1..][j] == captures[j + 1];
    }
  }

  /**
   * `parse_message`. The description patterns are not modelled: `captures`
   * holds, for each pattern in order, its first group when it matches.
   * None when the description falls back to the first line of an empty
   * text, where `splitlines()[0]` raises.
   */
  method ParseMessage(text: string, captures: seq<Option<string>>) returns (r: Option<ParsedMessage>)
    ensures r.None? <==> text == [] && CapturedDescription(captures) == []
    ensures r.Some? ==> r.value.currency == "RUB" && r.value.amount == ParseAmount(text)
    ensures r.Some? ==> (r.value.kind == Credit <==> HasCreditKeyword(text))
    ensures r.Some? && CapturedDescription(captures) != [] ==> r.value.description == CapturedDescription(captures)
    ensures r.Some? && CapturedDescription(captures) == [] ==> r.value.description == FirstLine(text)
  {
    var description := "";
    var i := 0;
    while i < |captures|
      invariant 0 <= i <= |captures|
      invariant description == []
      invariant CapturedDescription(captures) == CapturedDescription(captures[i..])
    {
      assert captures[i..][1..] == captures[i + 1..];
      if captures[i].Some? {
        description := CleanCapture(captures[i].value);
        break;
      }
      i := i + 1;
    }
    assert i < |captures| ==> description == CapturedDescription(captures);
    if description == [] {
      if text == [] {
        return None;
      }
      description := FirstLine(text);
    }
    var kind := if HasCreditKeyword(text) then Credit else Debit;
    r := Some(ParsedMessage(kind, ParseAmount(text), "RUB", description));
  }
}
