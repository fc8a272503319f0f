/**
  A rotor of the machine (class `Rotor` in CSharpEnigma/Rotor.cs): its two
  lookup tables, built from a wiring string when it is constructed, its ring
  offset and its indicator. The `Dictionary` tables are maps; the exceptions
  the constructor throws are the `Failure` side of a `Result`.
*/
module Rotor {
  import opened Wrappers
  import C = Characters

  /** `Rotor.Rotors`: the rotors on offer, in declaration order, and the error value. */
  datatype Rotors = I | II | III | IV | VI | VII | VIII | Beta | Gamma | BadRotor

  /** The ordinal of a rotor choice, `(int)chosenRotor`. */
  function RotorOrd(r: Rotors): (n: nat)
    ensures n <= 9
    ensures n == 9 <==> r == BadRotor
  {
    match r
    case I => 0
    case II => 1
    case III => 2
    case IV => 3
    case VI => 4
    case VII => 5
    case VIII => 6
    case Beta => 7
    case Gamma => 8
    case BadRotor => 9
  }

  /** `RotorStrings`: the right-to-left wiring of each rotor, indexed by the
      ordinal of the choice. The position of a letter in the string is the
      ordinal of the key; the letter is the value. */
  const RotorStrings: seq<string> := [
    RotorString0, RotorString1, RotorString2, RotorString3, RotorString4,
    RotorString5, RotorString6, RotorString7, RotorString8, RotorString9]

  const RotorString0: string := "EKMFLGDQVZNTOWYHXUSPAIBRCJ"
  const RotorString1: string := "AJDKSIRUXBLHWTMCQGZNPYFVOE"
  const RotorString2: string := "BDFHJLCPRTXVZNYEIWGAKMUSQO"
  const RotorString3: string := "ESOVPZJAYQUIRHXLNFTGKDCMWB"
  const RotorString4: string := "VZBRGITYUPSDNHLXAWMJQOFECK"
  const RotorString5: string := "JPGVOUMFYQBENHZRDKASXLICTW"
  const RotorString6: string := "NZJHGRCXMYSWBOUFAIVLPEKQDT"
  const RotorString7: string := "FKQHTLXOCBJSPDZRAMEWNIUYGV"
  const RotorString8: string := "LEYJVCNIXWPBQMDRTAKZGFUHOS"
  const RotorString9: string := "FSOKANUERHMBTIYCWLQPZXVGJD"

  /** The two exceptions of CSharpEnigma/CustomExceptions.cs. */
  datatype RotorException = InvalidRotorChoiceException | InvalidCharacterException

  /** `w` has one capital per position and every capital occurs in it. */
  ghost predicate Spelled(w: string) {
    && |w| == C.RingSize
    && (forall i :: 0 <= i < |w| ==> 'A' <= w[i] <= 'Z')
    && (forall c :: 'A' <= c <= 'Z' ==> c in w)
  }

  /** No character of `w` occurs twice. */
  ghost predicate Distinct(w: string) {
    forall i, j :: 0 <= i < j < |w| ==> w[i] != w[j]
  }

  /** A wiring string is a permutation of the capitals 'A'..'Z'. */
  ghost predicate IsWiring(w: string) {
    Spelled(w) && Distinct(w)
  }

  // Distinctness follows from Spelled by counting: a string that holds every
  // character of a set S is at least |S| long, and one with a repeated
  // character at least |S| + 1 long.

  predicate IsCapitalBelow(c: char, n: int) {
    'A' <= c && (c as int) < 'A' as int + n
  }

  /** The first `n` capitals. */
  ghost function CapitalsBelow(n: int): set<char> {
    set c: char | IsCapitalBelow(c, n)
  }

  lemma {:induction false} CapitalsBelowCard(n: nat)
    requires n <= C.RingSize
    ensures |CapitalsBelow(n)| == n
  {
    if n == 0 {
      assert CapitalsBelow(0) == {};
    } else {
      var top := ('A' as int + n - 1) as char;
      assert CapitalsBelow(n) == CapitalsBelow(n - 1) + {top};
      CapitalsBelowCard(n - 1);
    }
  }

  lemma {:induction false} CoverBound(w: string, S: set<char>)
    requires forall c :: c in S ==> c in w
    ensures |S| <= |w|
    decreases |w|
  {
    if w == [] {
      assert S == {};
    } else {
      var rest := w[1..];
      var S' := S - {w[0]};
      forall c | c in S' ensures c in rest {
        var k :| 0 <= k < |w| && w[k] == c;
        assert rest[k - 1] == c;
      }
      CoverBound(rest, S');
    }
  }

  lemma DuplicateShrinksCover(w: string, S: set<char>, i: int, j: int)
    requires forall c :: c in S ==> c in w
    requires 0 <= i < j < |w| && w[i] == w[j]
    ensures |S| < |w|
  {
    var shorter := w[..j] + w[j + 1..];
    forall c | c in S ensures c in shorter {
      var k :| 0 <= k < |w| && w[k] == c;
      if k == j {
        assert shorter[i] == c;
      } else if k < j {
        assert shorter[k] == c;
      } else {
        assert shorter[k - 1] == c;
      }
    }
    CoverBound(shorter, S);
  }

  lemma SpelledIsDistinct(w: string)
    requires Spelled(w)
    ensures Distinct(w)
  {
    var S := CapitalsBelow(C.RingSize);
    CapitalsBelowCard(C.RingSize);
    forall i, j | 0 <= i < j < |w| ensures w[i] != w[j] {
      if w[i] == w[j] {
        DuplicateShrinksCover(w, S, i, j);
        assert false;
      }
    }
  }

  lemma Spelled0() ensures Spelled(RotorString0) {}
  lemma Spelled1() ensures Spelled(RotorString1) {}
  lemma Spelled2() ensures Spelled(RotorString2) {}
  lemma Spelled3() ensures Spelled(RotorString3) {}
  lemma Spelled4() ensures Spelled(RotorString4) {}
  lemma Spelled5() ensures Spelled(RotorString5) {}
  lemma Spelled6() ensures Spelled(RotorString6) {}
  lemma Spelled7() ensures Spelled(RotorString7) {}
  lemma Spelled8() ensures Spelled(RotorString8) {}
  lemma Spelled9() ensures Spelled(RotorString9) {}

  /** Every entry of RotorStrings is a permutation of the alphabet. */
  lemma RotorStringsAreWirings()
    ensures |RotorStrings| == 10
    ensures forall k :: 0 <= k < |RotorStrings| ==> IsWiring(RotorStrings[k])
  {
    Spelled0(); SpelledIsDistinct(RotorString0);
    Spelled1(); SpelledIsDistinct(RotorString1);
    Spelled2(); SpelledIsDistinct(RotorString2);
    Spelled3(); SpelledIsDistinct(RotorString3);
    Spelled4(); SpelledIsDistinct(RotorString4);
    Spelled5(); SpelledIsDistinct(RotorString5);
    Spelled6(); SpelledIsDistinct(RotorString6);
    Spelled7(); SpelledIsDistinct(RotorString7);
    Spelled8(); SpelledIsDistinct(RotorString8);
    Spelled9(); SpelledIsDistinct(RotorString9);
  }

  /** The wiring string a rotor choice selects: the entry at its ordinal. */
  function WiringOf(chosenRotor: Rotors): (w: string)
    requires chosenRotor != BadRotor
    ensures IsWiring(w)
    ensures w == RotorStrings[RotorOrd(chosenRotor)]
  {
    RotorStringsAreWirings();
    RotorStrings[RotorOrd(chosenRotor)]
  }

  /** The choice is made by ordinal alone. Rotors has no V, so VI takes the
      fifth string and every later rotor the string at its own ordinal, which
      is the wiring of the rotor named just before it; the last string is
      never chosen. */
  lemma WiringSelection()
    ensures WiringOf(VI) == RotorStrings[4] && WiringOf(Gamma) == RotorStrings[8]
    ensures forall r :: r != BadRotor ==> WiringOf(r) != RotorStrings[9]
  {
    forall r | r != BadRotor
      ensures WiringOf(r) != RotorStrings[9]
    {
      assert WiringOf(r)[0] != RotorStrings[9][0] || WiringOf(r)[1] != RotorStrings[9][1];
    }
  }

  /** The letter `Enum.Parse` reads at position `Ord(key)` of the chosen
      wiring: the right-to-left image of `key`. */
  function WiringLetter(chosenRotor: Rotors, key: C.Letter): (v: C.Letter)
    requires chosenRotor != BadRotor && key != C.BadCharacter
    ensures v != C.BadCharacter
  {
    var w := WiringOf(chosenRotor);
    C.ParseLetter(w[C.Ord(key)]).value
  }

  /** Distinct keys have distinct images: `leftToRightMapping.Add` never
      meets a key twice. */
  lemma WiringLetterInjective(chosenRotor: Rotors, k1: C.Letter, k2: C.Letter)
    requires chosenRotor != BadRotor && k1 != C.BadCharacter && k2 != C.BadCharacter
    requires WiringLetter(chosenRotor, k1) == WiringLetter(chosenRotor, k2)
    ensures k1 == k2
  {
    var w := WiringOf(chosenRotor);
    var i1, i2 := C.Ord(k1), C.Ord(k2);
    assert C.Ord(WiringLetter(chosenRotor, k1)) == w[i1] as int - 'A' as int;
    assert C.Ord(WiringLetter(chosenRotor, k2)) == w[i2] as int - 'A' as int;
    assert w[i1] == w[i2];
    C.OrdInjective(k1, k2);
  }

  /** Every letter is the image of some key. */
  lemma WiringLetterOnto(chosenRotor: Rotors, v: C.Letter) returns (key: C.Letter)
    requires chosenRotor != BadRotor && v != C.BadCharacter
    ensures key != C.BadCharacter && WiringLetter(chosenRotor, key) == v
  {
    var w := WiringOf(chosenRotor);
    var c := ('A' as int + C.Ord(v)) as char;
    assert c in w;
    var i :| 0 <= i < |w| && w[i] == c;
    key := C.FromOrd(i);
    C.OrdInjective(WiringLetter(chosenRotor, key), v);
  }

  /** The exceptions a construction may throw, or the rotor it yields. */
  type RotorResult = Result<Rotor, RotorException>

  /** A rotor: `rightToLeftMapping` sends each letter to the letter its wiring
      string holds at that letter's position, and `leftToRightMapping` is its
      inverse. */
  class Rotor {
    var rightToLeftMapping: map<C.Letter, C.Letter>
    var leftToRightMapping: map<C.Letter, C.Letter>
    var currentOffset: C.Letter
    var currentIndicator: C.Letter

    /** Both tables have exactly the 26 letters as keys and undo each other,
        and the offset is a letter. No member assigns the indicator, so it
        keeps the default of its enum type, A. */
    ghost predicate Valid()
      reads this
    {
      && (forall l :: l in rightToLeftMapping <==> l != C.BadCharacter)
      && (forall l :: l in leftToRightMapping <==> l != C.BadCharacter)
      && (forall k :: k in rightToLeftMapping ==>
            rightToLeftMapping[k] in leftToRightMapping && leftToRightMapping[rightToLeftMapping[k]] == k)
      && (forall v :: v in leftToRightMapping ==>
            leftToRightMapping[v] in rightToLeftMapping && rightToLeftMapping[leftToRightMapping[v]] == v)
      && currentOffset != C.BadCharacter
      && currentIndicator == C.A
    }

    /** The right-to-left table is the one the wiring of `chosenRotor` spells out. */
    ghost predicate WiredAs(chosenRotor: Rotors)
      requires chosenRotor != BadRotor
      reads this
    {
      forall l :: l != C.BadCharacter ==>
        l in rightToLeftMapping && rightToLeftMapping[l] == WiringLetter(chosenRotor, l)
    }

    /** The `Offset` property: the ring offset, always a letter. */
    function Offset(): (r: C.Letter)
      requires Valid()
      reads this
      ensures r != C.BadCharacter
    {
      currentOffset
    }

    /** The `Indicator` property: never assigned, so always A. */
    function Indicator(): (r: C.Letter)
      requires Valid()
      reads this
      ensures r == C.A
    {
      currentIndicator
    }

    /** The part of the constructor that runs once the rotor choice has been
        accepted: the field defaults, then the right-to-left table filled from
        the wiring string, then the left-to-right table filled by inverting it. */
    constructor (chosenRotor: Rotors)
      requires chosenRotor != BadRotor
      ensures Valid() && WiredAs(chosenRotor)
      ensures currentOffset == C.A
    {
      var rightToLeft := FillRightToLeft(chosenRotor);
      forall k1, k2 | k1 in rightToLeft && k2 in rightToLeft && rightToLeft[k1] == rightToLeft[k2]
        ensures k1 == k2
      {
        WiringLetterInjective(chosenRotor, k1, k2);
      }
      var leftToRight := Inverted(rightToLeft);
      forall v ensures v in leftToRight <==> v != C.BadCharacter {
        if v != C.BadCharacter {
          var k := WiringLetterOnto(chosenRotor, v);
          assert rightToLeft[k] == v;
        }
      }
      rightToLeftMapping := rightToLeft;
      leftToRightMapping := leftToRight;
      currentOffset := C.A;
      currentIndicator := C.A;
    }
  }

  /** The constructor's first loop: the key of ordinal `index` is mapped to
      the letter at position `index` of the chosen wiring string. */
  method FillRightToLeft(chosenRotor: Rotors) returns (rightToLeft: map<C.Letter, C.Letter>)
    requires chosenRotor != BadRotor
    ensures forall l :: l in rightToLeft <==> l != C.BadCharacter
    ensures forall l :: l in rightToLeft ==> rightToLeft[l] == WiringLetter(chosenRotor, l)
  {
    var wiring := WiringOf(chosenRotor);
    rightToLeft := map[];
    for index := 0 to |wiring|
      invariant forall l :: l in rightToLeft <==> C.Ord(l) < index
      invariant forall l :: l in rightToLeft ==>
        l != C.BadCharacter && rightToLeft[l] == WiringLetter(chosenRotor, l)
    {
      var key := C.FromOrd(index);
      // Dictionary.Add throws on a key already present; none is.
      assert key !in rightToLeft;
      rightToLeft := rightToLeft[key := C.ParseLetter(wiring[index]).value];
      forall l ensures l in rightToLeft <==> C.Ord(l) < index + 1 {
        if C.Ord(l) == index {
          C.OrdInjective(l, key);
        }
      }
    }
  }

  /** The constructor's second loop: a foreach over `table`, in whatever
      order it yields its entries, adding each entry turned round. Adding a
      key twice would throw, so the values of `table` must not repeat. */
  method Inverted(table: map<C.Letter, C.Letter>) returns (inverse: map<C.Letter, C.Letter>)
    requires forall k1, k2 :: k1 in table && k2 in table && table[k1] == table[k2] ==> k1 == k2
    ensures forall k :: k in table ==> table[k] in inverse && inverse[table[k]] == k
    ensures forall v :: v in inverse ==> inverse[v] in table && table[inverse[v]] == v
  {
    inverse := map[];
    var pending := table.Keys;
    while pending != {}
      invariant pending <= table.Keys
      invariant forall k :: k in table && k !in pending ==> table[k] in inverse && inverse[table[k]] == k
      invariant forall v :: v in inverse ==> inverse[v] in table && inverse[v] !in pending && table[inverse[v]] == v
      decreases pending
    {
      var k :| k in pending;
      assert table[k] !in inverse;
      inverse := inverse[table[k] := k];
      pending := pending - {k};
    }
  }

  /** The constructor `Rotor(chosenRotor, ringOffset)`. The rotor choice is
      checked first, so a bad choice wins over a bad offset; then the tables
      are built; then the ring offset is checked and stored. The offset plays
      no part in the tables. */
  method NewRotor(chosenRotor: Rotors, ringOffset: C.Letter) returns (result: RotorResult)
    ensures chosenRotor == BadRotor ==> result == Failure(InvalidRotorChoiceException)
    ensures chosenRotor != BadRotor && ringOffset == C.BadCharacter ==>
      result == Failure(InvalidCharacterException)
    ensures chosenRotor != BadRotor && ringOffset != C.BadCharacter ==>
      && result.Success? && fresh(result.value)
      && result.value.Valid() && result.value.WiredAs(chosenRotor)
      && result.value.Offset() == ringOffset && result.value.Indicator() == C.A
  {
    if chosenRotor == BadRotor {
      return Failure(InvalidRotorChoiceException);
    }
    var rotor := new Rotor(chosenRotor);
    if ringOffset != C.BadCharacter {
      rotor.currentOffset := ringOffset;
      result := Success(rotor);
    } else {
      result := Failure(InvalidCharacterException);
    }
  }

  /** The constructor `Rotor(chosenRotor)`: the full constructor with offset A. */
  method NewRotorAtOffsetA(chosenRotor: Rotors) returns (result: RotorResult)
    ensures chosenRotor == BadRotor ==> result == Failure(InvalidRotorChoiceException)
    ensures chosenRotor != BadRotor ==>
      && result.Success? && fresh(result.value)
      && result.value.Valid() && result.value.WiredAs(chosenRotor)
      && result.value.Offset() == C.A && result.value.Indicator() == C.A
  {
    result := NewRotor(chosenRotor, C.A);
  }

  /** Two tables over the same keys with the same entries are the same table. */
  lemma SameEntriesSameTable(m1: map<C.Letter, C.Letter>, m2: map<C.Letter, C.Letter>)
    requires forall k :: k in m1 <==> k in m2
    requires forall k :: k in m1 ==> m1[k] == m2[k]
    ensures m1 == m2
  {
  }

  /** Two rotors built for the same choice have the same two tables, whatever
      their ring offsets. */
  lemma TablesDependOnChoiceOnly(a: Rotor, b: Rotor, chosenRotor: Rotors)
    requires chosenRotor != BadRotor
    requires a.Valid() && a.WiredAs(chosenRotor)
    requires b.Valid() && b.WiredAs(chosenRotor)
    ensures a.rightToLeftMapping == b.rightToLeftMapping
    ensures a.leftToRightMapping == b.leftToRightMapping
  {
    SameEntriesSameTable(a.rightToLeftMapping, b.rightToLeftMapping);
    forall v | v in a.leftToRightMapping
      ensures a.leftToRightMapping[v] == b.leftToRightMapping[v]
    {
      var ka, kb := a.leftToRightMapping[v], b.leftToRightMapping[v];
      assert a.rightToLeftMapping[ka] == v == a.rightToLeftMapping[kb];
      assert a.leftToRightMapping[a.rightToLeftMapping[kb]] == kb;
    }
    SameEntriesSameTable(a.leftToRightMapping, b.leftToRightMapping);
  }
}
