/**
  The Enigma alphabet (the `EnigmaAlphabet` enum of CSharpEnigma/Characters.cs)
  and the cyclic letter arithmetic of the `CharactersAssistant` helpers.

  A .NET enum is an integer in disguise: a cast `(Alphabet)n` always succeeds,
  and `Enum.IsDefined` tells whether `n` names a member. Here the 27 members
  are a datatype, `Ord` is the cast to `int`, `IsDefined` is the membership
  test, and `FromOrd` is the cast back for a defined value.
*/
module Characters {
  import opened Wrappers

  /** Number of positions on a rotor (`Rotor.RingSize`); the modulus of all letter arithmetic. */
  const RingSize: int := 26

  /** The letters A..Z (ordinals 0..25) and the sentinel `BadCharacter` (ordinal 26). */
  datatype Letter =
    | A | B | C | D | E | F | G | H | I | J | K | L | M | N | O | P | Q | R | S | T | U | V | W | X | Y | Z
    | BadCharacter

  /** The ordinal of a member, `(int)l`. */
  function Ord(l: Letter): (n: nat)
    ensures n <= RingSize
    ensures n == RingSize <==> l == BadCharacter
  {
    match l
    case A => 0
    case B => 1
    case C => 2
    case D => 3
    case E => 4
    case F => 5
    case G => 6
    case H => 7
    case I => 8
    case J => 9
    case K => 10
    case L => 11
    case M => 12
    case N => 13
    case O => 14
    case P => 15
    case Q => 16
    case R => 17
    case S => 18
    case T => 19
    case U => 20
    case V => 21
    case W => 22
    case X => 23
    case Y => 24
    case Z => 25
    case BadCharacter => 26
  }

  /** `Enum.IsDefined(typeof(Alphabet), (Alphabet)n)`: the ordinals that name a member. */
  predicate IsDefined(n: int) {
    0 <= n <= RingSize
  }

  /** The cast `(Alphabet)n` of an ordinal that names a member. */
  function FromOrd(n: int): (l: Letter)
    requires IsDefined(n)
    ensures Ord(l) == n
  {
    match n
    case 0 => A
    case 1 => B
    case 2 => C
    case 3 => D
    case 4 => E
    case 5 => F
    case 6 => G
    case 7 => H
    case 8 => I
    case 9 => J
    case 10 => K
    case 11 => L
    case 12 => M
    case 13 => N
    case 14 => O
    case 15 => P
    case 16 => Q
    case 17 => R
    case 18 => S
    case 19 => T
    case 20 => U
    case 21 => V
    case 22 => W
    case 23 => X
    case 24 => Y
    case 25 => Z
    case _ => BadCharacter
  }

  lemma OrdInjective(a: Letter, b: Letter)
    requires Ord(a) == Ord(b)
    ensures a == b
  {
  }

  /** C#'s `%`, which truncates toward zero (Dafny's `%` is Euclidean). */
  function CsRem(a: int, n: int): (r: int)
    requires n > 0
    ensures a >= 0 ==> r == a % n
    ensures a >= 0 ==> 0 <= r < n
    ensures a < 0 ==> -n < r <= 0
  {
    if a >= 0 then a % n else -((-a) % n)
  }

  /** The member `Enum.TryParse<Alphabet>(c.ToString(), out _)` yields for a
      one-character string, or None when it returns false. The parse is
      case-sensitive, so only the member names 'A'..'Z' match; a string of
      decimal digits is read as an ordinal, so '0'..'9' yield A..J. */
  function ParseLetter(c: char): (r: Option<Letter>)
    ensures r.Some? <==> 'A' <= c <= 'Z' || '0' <= c <= '9'
    ensures r.Some? ==> r.value != BadCharacter
    ensures 'A' <= c <= 'Z' ==> r.value == FromOrd(c as int - 'A' as int)
    ensures '0' <= c <= '9' ==> r.value == FromOrd(c as int - '0' as int)
  {
    if 'A' <= c <= 'Z' then Some(FromOrd(c as int - 'A' as int))
    else if '0' <= c <= '9' then Some(FromOrd(c as int - '0' as int))
    else None
  }

  // The four helpers below compute an ordinal modulo RingSize and cast it
  // back only if `IsDefined` accepts it, returning BadCharacter otherwise.

  /** `CharactersAssistant.NextCharacter`: the cyclic successor. */
  function NextCharacter(input: Letter): (r: Letter)
    ensures r != BadCharacter
    ensures Ord(r) == (Ord(input) + 1) % RingSize
  {
    var plusOne := CsRem(Ord(input) + 1, RingSize);
    if IsDefined(plusOne) then FromOrd(plusOne) else BadCharacter
  }

  /** `CharactersAssistant.PreviousCharacter`: the cyclic predecessor. */
  function PreviousCharacter(input: Letter): (r: Letter)
    ensures r != BadCharacter
    ensures Ord(r) == (Ord(input) - 1 + RingSize) % RingSize
  {
    var minusOne := CsRem(Ord(input) - 1 + RingSize, RingSize);
    if IsDefined(minusOne) then FromOrd(minusOne) else BadCharacter
  }

  /** `CharactersAssistant.ForwardsBy`: moves `first` forward by the ordinal of `second`. */
  function ForwardsBy(first: Letter, second: Letter): (r: Letter)
    ensures r != BadCharacter
    ensures Ord(r) == (Ord(first) + Ord(second)) % RingSize
  {
    var newCharacter := CsRem(Ord(first) + Ord(second), RingSize);
    if IsDefined(newCharacter) then FromOrd(newCharacter) else BadCharacter
  }

  /** `CharactersAssistant.BackwardsBy` as written: it adds `second` where a
      move backwards would subtract it. */
  function BackwardsBy(first: Letter, second: Letter): (r: Letter)
    ensures r != BadCharacter
  {
    var newCharacter := CsRem(Ord(first) + Ord(second) + RingSize, RingSize);
    if IsDefined(newCharacter) then FromOrd(newCharacter) else BadCharacter
  }

  /** `BackwardsBy` with the subtraction its name and its role (undoing an
      indicator or ring offset) call for. */
  function BackwardsByCorrected(first: Letter, second: Letter): (r: Letter)
    ensures r != BadCharacter
    ensures Ord(r) == (Ord(first) - Ord(second) + RingSize) % RingSize
  {
    var newCharacter := CsRem(Ord(first) - Ord(second) + RingSize, RingSize);
    if IsDefined(newCharacter) then FromOrd(newCharacter) else BadCharacter
  }

  // Ordinal arithmetic, stated apart from the letter functions so that the
  // solver need not unfold the 27-way matches of Ord and FromOrd.

  lemma ModAddThenSub(o: int, k: int, p: int)
    requires 0 <= o < RingSize && 0 <= k <= RingSize
    requires p == (o + k) % RingSize
    ensures (p - k + RingSize) % RingSize == o
    ensures (p + RingSize) % RingSize == p
  {
  }

  lemma ModSubThenAdd(o: int, k: int, p: int)
    requires 0 <= o < RingSize && 0 <= k <= RingSize
    requires p == (o - k + RingSize) % RingSize
    ensures (p + k) % RingSize == o
  {
  }

  /** Successor and predecessor undo each other on the 26 letters. */
  lemma NextPreviousInverse(x: Letter)
    requires x != BadCharacter
    ensures NextCharacter(PreviousCharacter(x)) == x
    ensures PreviousCharacter(NextCharacter(x)) == x
  {
    var o := Ord(x);
    ModSubThenAdd(o, 1, Ord(PreviousCharacter(x)));
    OrdInjective(NextCharacter(PreviousCharacter(x)), x);
    ModAddThenSub(o, 1, Ord(NextCharacter(x)));
    OrdInjective(PreviousCharacter(NextCharacter(x)), x);
  }

  /** The successor of a letter other than Z is the next letter in order;
      the predecessor of a letter other than A is the previous one. */
  lemma NextPreviousStep(x: Letter)
    requires x != BadCharacter
    ensures x != Z ==> Ord(NextCharacter(x)) == Ord(x) + 1
    ensures x != A ==> Ord(PreviousCharacter(x)) == Ord(x) - 1
  {
    var o := Ord(x);
    if o == Ord(Z) { OrdInjective(x, Z); }
    if o == Ord(A) { OrdInjective(x, A); }
    assert o < 25 ==> (o + 1) % RingSize == o + 1;
    assert 0 < o ==> (o - 1 + RingSize) % RingSize == o - 1;
  }

  /** The wrap-around cases, and the sentinel, which the helpers turn into a letter. */
  lemma WrapAround()
    ensures NextCharacter(Z) == A && PreviousCharacter(A) == Z
    ensures NextCharacter(BadCharacter) == B && PreviousCharacter(BadCharacter) == Z
  {
  }

  /** Moving forward by A (ordinal 0) changes nothing; by B it is the successor. */
  lemma ForwardsByUnit(x: Letter)
    requires x != BadCharacter
    ensures ForwardsBy(x, A) == x
    ensures ForwardsBy(x, B) == NextCharacter(x)
  {
    var o := Ord(x);
    assert (o + 0) % RingSize == o;
    OrdInjective(ForwardsBy(x, A), x);
    OrdInjective(ForwardsBy(x, B), NextCharacter(x));
  }

  /** As written, BackwardsBy is ForwardsBy under another name. */
  lemma BackwardsByIsForwardsBy(first: Letter, second: Letter)
    ensures BackwardsBy(first, second) == ForwardsBy(first, second)
  {
    var m := Ord(first) + Ord(second);
    assert (m + RingSize) % RingSize == m % RingSize;
    OrdInjective(BackwardsBy(first, second), ForwardsBy(first, second));
  }

  /** So BackwardsBy does not undo ForwardsBy: going forward from A by B and
      then "backwards" by B lands on C, not on A. */
  lemma BackwardsByDoesNotUndoForwardsBy()
    ensures BackwardsBy(ForwardsBy(A, B), B) == C
  {
  }

  /** The corrected BackwardsBy undoes ForwardsBy, for every letter and every offset. */
  lemma BackwardsByCorrectedUndoesForwardsBy(x: Letter, offset: Letter)
    requires x != BadCharacter
    ensures BackwardsByCorrected(ForwardsBy(x, offset), offset) == x
  {
    var forward := ForwardsBy(x, offset);
    var backward := BackwardsByCorrected(forward, offset);
    ModAddThenSub(Ord(x), Ord(offset), Ord(forward));
    assert Ord(backward) == Ord(x);
    OrdInjective(backward, x);
  }

  /** ForwardsBy undoes the corrected BackwardsBy, for every letter and every offset. */
  lemma ForwardsByUndoesBackwardsByCorrected(x: Letter, offset: Letter)
    requires x != BadCharacter
    ensures ForwardsBy(BackwardsByCorrected(x, offset), offset) == x
  {
    var backward := BackwardsByCorrected(x, offset);
    var forward := ForwardsBy(backward, offset);
    ModSubThenAdd(Ord(x), Ord(offset), Ord(backward));
    assert Ord(forward) == Ord(x);
    OrdInjective(forward, x);
  }

  /** Moving the corrected BackwardsBy by A changes nothing; by B it is the predecessor. */
  lemma BackwardsByCorrectedUnit(x: Letter)
    requires x != BadCharacter
    ensures BackwardsByCorrected(x, A) == x
    ensures BackwardsByCorrected(x, B) == PreviousCharacter(x)
  {
    var o := Ord(x);
    assert (o - 0 + RingSize) % RingSize == o;
    OrdInjective(BackwardsByCorrected(x, A), x);
    OrdInjective(BackwardsByCorrected(x, B), PreviousCharacter(x));
  }
}
