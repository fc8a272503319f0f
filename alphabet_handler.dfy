/**
  Conversion of text to the numeric codes the machine works on
  (`AlphabetHandler` in CSharpEnigma/AlphabetHandler.cs). A character converts
  when the alphabet enum parses it (see `Characters.ParseLetter`); its code is
  the ordinal of the member it parses to.
*/
module AlphabetHandler {
  import opened Wrappers
  import C = Characters

  /** `AlphabetHandler.BadCharacter`: the code of a character that does not convert. */
  const BadCharacter: int := 26

  /** The code constant agrees with the ordinal of the alphabet's sentinel,
      which sits right after Z. */
  lemma BadCharacterIsSentinel()
    ensures BadCharacter == C.Ord(C.BadCharacter) == C.Ord(C.Z) + 1
    ensures forall l: C.Letter :: C.Ord(l) == BadCharacter <==> l == C.BadCharacter
  {
  }

  /** `TryConvertToAlphabet(c, out code)`: the `bool` it returns paired with
      the code it stores in its `out` parameter. */
  function TryConvertToAlphabet(incomingText: char): (r: (bool, int))
    ensures r.0 <==> 'A' <= incomingText <= 'Z' || '0' <= incomingText <= '9'
    ensures 'A' <= incomingText <= 'Z' ==> r.1 == incomingText as int - 'A' as int
    ensures '0' <= incomingText <= '9' ==> r.1 == incomingText as int - '0' as int
    ensures !r.0 ==> r.1 == BadCharacter
    ensures r.0 ==> 0 <= r.1 < C.RingSize
  {
    match C.ParseLetter(incomingText)
    case Some(tempText) => (true, C.Ord(tempText))
    case None => (false, BadCharacter)
  }

  /** `ConvertToAlphabet(char)`: the code of one character, BadCharacter when
      it does not convert. */
  function ConvertCharToAlphabet(incomingText: char): (code: int)
    ensures code == TryConvertToAlphabet(incomingText).1
    ensures 0 <= code <= BadCharacter
    ensures code == BadCharacter <==> !TryConvertToAlphabet(incomingText).0
  {
    var (converted, tempText) := TryConvertToAlphabet(incomingText);
    if converted then tempText else BadCharacter
  }

  /** What `ConvertToAlphabet(string)` returns: the codes of the characters
      that parse, in input order; the others are dropped. */
  function Converted(text: string): (codes: seq<int>)
    ensures |codes| <= |text|
    ensures forall i :: 0 <= i < |codes| ==> 0 <= codes[i] < C.RingSize
  {
    if text == [] then []
    else
      var parsed := C.ParseLetter(text[|text| - 1]);
      Converted(text[..|text| - 1]) + (if parsed.Some? then [C.Ord(parsed.value)] else [])
  }

  /** `ConvertToAlphabet(string)`: a loop appending the code of every
      character that parses to a list. */
  method ConvertToAlphabet(incomingText: string) returns (returnValue: seq<int>)
    ensures returnValue == Converted(incomingText)
  {
    returnValue := [];
    for index := 0 to |incomingText|
      invariant returnValue == Converted(incomingText[..index])
    {
      var item := incomingText[index];
      var temp := C.ParseLetter(item);
      if temp.Some? {
        returnValue := returnValue + [C.Ord(temp.value)];
      }
      assert incomingText[..index + 1][..index] == incomingText[..index];
    }
    assert incomingText[..|incomingText|] == incomingText;
  }

  /** Conversion distributes over concatenation; the empty text converts to nothing. */
  lemma {:induction false} ConvertedAppend(s: string, t: string)
    ensures Converted([]) == []
    ensures Converted(s + t) == Converted(s) + Converted(t)
    decreases |t|
  {
    if t != [] {
      var t' := t[..|t| - 1];
      assert (s + t)[..|s + t| - 1] == s + t';
      assert (s + t)[|s + t| - 1] == t[|t| - 1];
      ConvertedAppend(s, t');
    } else {
      assert s + t == s;
    }
  }

  /** The per-character codes of `text`, BadCharacter included. */
  function CharCodes(text: string): (codes: seq<int>)
    ensures |codes| == |text|
  {
    seq(|text|, i requires 0 <= i < |text| => ConvertCharToAlphabet(text[i]))
  }

  /** `codes` with every BadCharacter removed, order kept. */
  function WithoutBad(codes: seq<int>): (kept: seq<int>)
    ensures |kept| <= |codes|
    ensures forall i :: 0 <= i < |kept| ==> kept[i] != BadCharacter
  {
    if codes == [] then []
    else
      var last := codes[|codes| - 1];
      WithoutBad(codes[..|codes| - 1]) + (if last == BadCharacter then [] else [last])
  }

  /** The string conversion is the per-character conversion with the
      BadCharacter codes removed. */
  lemma {:induction false} ConvertedIsCharCodesWithoutBad(text: string)
    ensures Converted(text) == WithoutBad(CharCodes(text))
    decreases |text|
  {
    if text != [] {
      var init := text[..|text| - 1];
      assert CharCodes(text)[..|text| - 1] == CharCodes(init);
      ConvertedIsCharCodesWithoutBad(init);
    }
  }

  /** A text of capital letters loses nothing: each letter becomes its
      distance from 'A'. */
  lemma {:induction false} ConvertedCapitals(text: string)
    requires forall i :: 0 <= i < |text| ==> 'A' <= text[i] <= 'Z'
    ensures |Converted(text)| == |text|
    ensures forall i :: 0 <= i < |text| ==> Converted(text)[i] == text[i] as int - 'A' as int
    decreases |text|
  {
    if text != [] {
      ConvertedCapitals(text[..|text| - 1]);
    }
  }

  /** A text none of whose characters parses (lower-case letters, spaces,
      punctuation) converts to nothing. */
  lemma {:induction false} ConvertedNothingParses(text: string)
    requires forall i :: 0 <= i < |text| ==> C.ParseLetter(text[i]).None?
    ensures Converted(text) == []
    decreases |text|
  {
    if text != [] {
      ConvertedNothingParses(text[..|text| - 1]);
    }
  }
}
