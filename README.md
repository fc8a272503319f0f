# CSharpEnigma core, modelled in Dafny

CSharpEnigma is an early Enigma simulator in C#. What it has so far is
three self-contained pieces, and this project models each of them:

- **The Enigma alphabet** (`characters.dfy`, module `Characters`): the 27
  members A..Z plus the `BadCharacter` sentinel, and the letter arithmetic
  helpers `NextCharacter`, `PreviousCharacter`, `ForwardsBy` and
  `BackwardsBy`. These helpers sit in a comment block of
  `CSharpEnigma/Characters.cs`, but the unit tests still call them.
- **Rotor construction** (`rotor.dfy`, module `Rotor`): choosing a wiring
  string by the ordinal of the rotor choice, filling the right-to-left table
  from it, and filling the left-to-right table by inverting that one. It also
  covers the checks on the rotor choice and the ring offset, and the `Offset`
  and `Indicator` properties.
- **Text-to-code conversion** (`alphabet_handler.dfy`, module
  `AlphabetHandler`): characters become codes 0..25, and 26 marks a
  character that does not convert.

`wrappers.dfy` holds the `Option` and `Result` types. They stand in for
`out` parameters and exceptions.

How .NET constructs are rendered:

- An enum value is a datatype constructor. `Ord` is the cast to `int`.
  `IsDefined` is `Enum.IsDefined`. `FromOrd` casts a defined ordinal back.
- C#'s truncating `%` is `CsRem`. In every use here its operands are
  non-negative, so it agrees with Dafny's `%`.
- `Enum.TryParse` and `Enum.Parse` on a one-character string are
  `ParseLetter`. The match is case-sensitive, so only 'A'..'Z' parse as
  member names. A digit string is read as an ordinal, so '0'..'9' also parse,
  to A..J.
- A `Dictionary` is a `map`. Its `Add` throws on a key already present. The
  model asserts at each `Add` that the key is new.
- The C# `Rotor(chosenRotor, ringOffset)` constructor is split in two:
  - `NewRotor` checks the rotor choice first, then builds the rotor with the
    class constructor, then checks and stores the ring offset. A failure is
    the `Failure` side of a `Result`, naming the exception that would be
    thrown.
  - The class constructor sets the field defaults and runs the two table
    loops, `FillRightToLeft` and `Inverted`.

What the code does, where the design of a full Enigma says otherwise:

- The ring offset is stored and never applied. Both tables are built
  before it is checked, and without reference to it.
- Nothing assigns the indicator, so it stays at its enum default, A.
- On the 27 declared members, the letter helpers never produce
  `BadCharacter`, even for a `BadCharacter` input. On those members their
  `IsDefined` else-branches cannot be reached.
- `Rotor.Rotors` has no `V`. So `VI` selects the fifth wiring string. Each
  later choice takes the string at its own ordinal, which is the wiring of
  the rotor named just before it. The tenth string (Gamma's) is never
  selected. This is modelled exactly as indexed.

## Model

| member | source | states |
|---|---|---|
| `Characters.Ord` | CSharpEnigma/Characters.cs:9-119 | every member has an ordinal in 0..26, and 26 belongs to `BadCharacter` alone |
| `Characters.FromOrd` | CSharpEnigma/Characters.cs:9-119 | casting a defined ordinal 0..26 to the enum gives the member with that ordinal |
| `Characters.OrdInjective` | CSharpEnigma/Characters.cs:9-119 | distinct members have distinct ordinals, so the enum has exactly 27 members |
| `Characters.ParseLetter` | CSharpEnigma/AlphabetHandler.cs:65 | a one-character string parses exactly when it is 'A'..'Z' or '0'..'9'; a capital parses to its own letter; a parse never yields `BadCharacter` |
| `Characters.NextCharacter` | CSharpEnigma/Characters.cs:132-142 | the result is never `BadCharacter`, and its ordinal is the input's plus one, modulo 26 |
| `Characters.PreviousCharacter` | CSharpEnigma/Characters.cs:144-154 | the result is never `BadCharacter`, and its ordinal is the input's minus one, modulo 26 |
| `Characters.ForwardsBy` | CSharpEnigma/Characters.cs:166-176 | the result is never `BadCharacter`, and its ordinal is the sum of the two ordinals modulo 26 |
| `Characters.BackwardsBy` | CSharpEnigma/Characters.cs:178-188 | as written, the result is never `BadCharacter` |
| `Characters.BackwardsByCorrected` | CSharpEnigma/Characters.cs:178-188 | the intended backwards move: its ordinal is `first` minus `second`, modulo 26, and it is never `BadCharacter` |
| `Characters.NextPreviousInverse` | CSharpEnigma/Characters.cs:132-154 | on the 26 letters, successor and predecessor undo each other in both orders |
| `Characters.NextPreviousStep` | CSharpEnigma/Characters.cs:132-154 | the successor of a letter other than Z is the next letter; the predecessor of a letter other than A is the previous one |
| `Characters.WrapAround` | CSharpEnigma/Characters.cs:132-154 | Z is followed by A and A is preceded by Z; `BadCharacter` is followed by B and preceded by Z |
| `Characters.ForwardsByUnit` | CSharpEnigma/Characters.cs:166-176 | moving forward by A is the identity, and moving forward by B is the successor |
| `Characters.BackwardsByIsForwardsBy` | CSharpEnigma/Characters.cs:178-188 | as written, `BackwardsBy` equals `ForwardsBy` on every pair of members |
| `Characters.BackwardsByDoesNotUndoForwardsBy` | CSharpEnigma/Characters.cs:166-188 | moving forward from A by B and then "backwards" by B gives C, not A |
| `Characters.BackwardsByCorrectedUndoesForwardsBy` | CSharpEnigma/Characters.cs:166-188 | the corrected backwards move undoes `ForwardsBy` on every letter, for every offset |
| `Characters.ForwardsByUndoesBackwardsByCorrected` | CSharpEnigma/Characters.cs:166-188 | `ForwardsBy` undoes the corrected backwards move on every letter, for every offset |
| `Characters.BackwardsByCorrectedUnit` | CSharpEnigma/Characters.cs:178-188 | the corrected backwards move by A is the identity, and by B it is the predecessor |
| `AlphabetHandler.BadCharacterIsSentinel` | CSharpEnigma/AlphabetHandler.cs:17 | the code 26 is the ordinal of the enum's `BadCharacter`, right after Z, and of no other member |
| `AlphabetHandler.TryConvertToAlphabet` | CSharpEnigma/AlphabetHandler.cs:62-74 | returns true exactly for 'A'..'Z' and '0'..'9'; a capital gets its distance from 'A' and a digit its value; on failure the code is 26; on success it is in 0..25 |
| `AlphabetHandler.ConvertCharToAlphabet` | CSharpEnigma/AlphabetHandler.cs:44-54 | always equals the code `TryConvertToAlphabet` stores; it is in 0..26, and it is 26 exactly when that conversion fails |
| `AlphabetHandler.Converted` | CSharpEnigma/AlphabetHandler.cs:24-37 | the converted text is no longer than the input, and every code in it is in 0..25 |
| `AlphabetHandler.ConvertToAlphabet` | CSharpEnigma/AlphabetHandler.cs:24-37 | the loop returns exactly `Converted` of its input |
| `AlphabetHandler.ConvertedAppend` | CSharpEnigma/AlphabetHandler.cs:24-37 | the empty text converts to nothing, and converting `s + t` gives the conversion of `s` followed by that of `t` |
| `AlphabetHandler.ConvertedIsCharCodesWithoutBad` | CSharpEnigma/AlphabetHandler.cs:24-54 | converting a text equals converting each character on its own and then removing every 26, in order |
| `AlphabetHandler.ConvertedCapitals` | CSharpEnigma/AlphabetHandler.cs:24-37 | a text of capitals loses no character, and each capital becomes its distance from 'A' |
| `AlphabetHandler.ConvertedNothingParses` | CSharpEnigma/AlphabetHandler.cs:24-37 | a text in which no character parses, such as lower-case letters or punctuation, converts to the empty list |
| `Rotor.RotorOrd` | CSharpEnigma/Rotor.cs:19-20 | the valid rotor choices have ordinals 0..8, and `BadRotor` alone has ordinal 9 |
| `Rotor.RotorStringsAreWirings` | CSharpEnigma/Rotor.cs:26-31 | there are ten wiring strings, and each is a permutation of 'A'..'Z' |
| `Rotor.WiringOf` | CSharpEnigma/Rotor.cs:102 | a valid choice selects the string at its own ordinal, and that string is a permutation of the alphabet |
| `Rotor.WiringSelection` | CSharpEnigma/Rotor.cs:19-31 | `VI` selects the fifth string and `Gamma` the ninth; no valid choice selects the tenth |
| `Rotor.WiringLetter` | CSharpEnigma/Rotor.cs:104-105 | the letter parsed at a key's position in the wiring string is always a real letter |
| `Rotor.WiringLetterInjective` | CSharpEnigma/Rotor.cs:108-113 | distinct keys get distinct letters, so the inverting `Add` never meets a key twice |
| `Rotor.WiringLetterOnto` | CSharpEnigma/Rotor.cs:108-113 | every letter is the right-to-left image of some key |
| `Rotor.Rotor.Offset` | CSharpEnigma/Rotor.cs:52-55 | on a constructed rotor the offset is always a real letter |
| `Rotor.Rotor.Indicator` | CSharpEnigma/Rotor.cs:61-69 | on a constructed rotor the indicator is A, since no member assigns it |
| `Rotor.FillRightToLeft` | CSharpEnigma/Rotor.cs:102-106 | the table has exactly the 26 letters as keys; each key maps to the letter at its position in the chosen wiring string |
| `Rotor.Inverted` | CSharpEnigma/Rotor.cs:108-113 | when the values do not repeat, the result is the exact inverse in both directions, whatever order the entries are visited in |
| `Rotor.Rotor.constructor` | CSharpEnigma/Rotor.cs:90-113 | both tables have exactly the 26 letters as keys and are mutually inverse; the right-to-left table is the chosen wiring; the offset starts at A |
| `Rotor.NewRotor` | CSharpEnigma/Rotor.cs:90-125 | `BadRotor` fails with the rotor-choice exception, even when the offset is also bad; otherwise a `BadCharacter` offset fails with the character exception; otherwise a fresh valid rotor has the chosen wiring, the given offset and indicator A |
| `Rotor.NewRotorAtOffsetA` | CSharpEnigma/Rotor.cs:78-81 | the one-argument constructor fails only on `BadRotor`, and otherwise gives the chosen wiring with offset A |
| `Rotor.TablesDependOnChoiceOnly` | CSharpEnigma/Rotor.cs:102-121 | two rotors built for the same choice have identical tables in both directions, whatever their ring offsets |

## Findings

| source | as written | input that shows it | evidently intended | confidence | as-written member | corrected member |
|---|---|---|---|---|---|---|
| CSharpEnigma/Characters.cs:180 | `BackwardsBy` computes `(first + second + RingSize) % RingSize`, so it adds `second` | `BackwardsBy(ForwardsBy(A, B), B)` is C, not A | `(first - second + RingSize) % RingSize`, which undoes `ForwardsBy` | high (not executed) | `Characters.BackwardsByDoesNotUndoForwardsBy` | `Characters.BackwardsByCorrectedUndoesForwardsBy` |

## Left out

- Values outside an enum's declared members, which a C# cast can produce, cannot be formed here. The only invalid values modelled are the sentinels `BadCharacter` and `BadRotor`. In the checks of the `Rotor` constructor (CSharpEnigma/Rotor.cs:92 and 118), an undefined value takes the same branch as its sentinel.
- Undefined enum values passed to the letter helpers in `CSharpEnigma/Characters.cs` are not modelled. `Enum.Parse` of a numeric string such as "-5" can produce one. A negative undefined input can make C#'s truncating `%` negative; the `IsDefined` check then fails and the helper returns `BadCharacter`. An input above 26 is reduced modulo 26, so it does not act like `BadCharacter`; for example, 27 is followed by C, while `BadCharacter` is followed by B. A large undefined value can also overflow the `int` addition.
- The `Characters` enum that `CSharpEnigma/Rotor.cs` uses is not part of this model. It is taken to have the same 27 members as `EnigmaAlphabet`.
- `Enum.TryParse` is modelled for one-character strings only, which is all the source passes it. Unicode digits other than ASCII '0'..'9' are taken not to parse.
- The messages carried by the exceptions are not modelled. Only which exception is thrown is.
- `List.TrimExcess` and the capacity hints given to `List` and `Dictionary` have no observable effect and are not modelled.
- The order in which the foreach visits the right-to-left table is left open. The model visits the keys in an arbitrary order, and its result does not depend on that order.
- `CSharpEnigmaTests/CharactersAssistantTests.cs` reads its expected values from an external database. It is not modelled. Its successor and predecessor checks are stated as `NextPreviousStep` and `WrapAround`.
- Rotor stepping, encipherment through a rotor, the reflector, the plugboard and the machine facade are not part of this code, so they are not modelled.
