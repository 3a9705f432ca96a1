/** The page transform that the toolbar's rotate and mirror buttons build up. */
module Transforms {

  /** The linear part of a `QTransform`; a point is a row vector, so (x, y) maps to (a x + c y, b x + d y). */
  datatype Matrix = Matrix(a: real, b: real, c: real, d: real)

  function Identity(): Matrix {
    Matrix(1.0, 0.0, 0.0, 1.0)
  }

  datatype Press = RotateLeft | RotateRight | Mirror

  /** The matrix of "first `e`, then `m`": `QTransform::rotate` and `scale` put theirs in front like this. */
  function Times(e: Matrix, m: Matrix): Matrix {
    Matrix(e.a * m.a + e.b * m.c, e.a * m.b + e.b * m.d, e.c * m.a + e.d * m.c, e.c * m.b + e.d * m.d)
  }

  /** Quarter turns by -90 and 90 degrees, which Qt makes exact, and the scaling by (-1, 1). */
  function Elementary(press: Press): Matrix {
    match press
    case RotateLeft => Matrix(0.0, -1.0, 1.0, 0.0)
    case RotateRight => Matrix(0.0, 1.0, -1.0, 0.0)
    case Mirror => Matrix(-1.0, 0.0, 0.0, 1.0)
  }

  function Negated(x: real): real {
    -x
  }

  /** What a press makes of the matrix. */
  function Pressed(m: Matrix, press: Press): Matrix {
    match press
    case RotateLeft => Matrix(Negated(m.c), Negated(m.d), m.a, m.b)
    case RotateRight => Matrix(m.c, m.d, Negated(m.a), Negated(m.b))
    case Mirror => Matrix(Negated(m.a), Negated(m.b), m.c, m.d)
  }

  lemma PressIsPremultiplication(m: Matrix, press: Press)
    ensures Pressed(m, press) == Times(Elementary(press), m)
  {
  }

  function After(presses: seq<Press>): Matrix {
    if presses == [] then Identity() else Pressed(After(presses[..|presses| - 1]), presses[|presses| - 1])
  }

  predicate IsSign(x: real) {
    x == 1.0 || x == -1.0
  }

  /** One of the eight matrices that permute the axes up to sign. */
  predicate SignedPermutation(m: Matrix) {
    || (IsSign(m.a) && m.b == 0.0 && m.c == 0.0 && IsSign(m.d))
    || (m.a == 0.0 && IsSign(m.b) && IsSign(m.c) && m.d == 0.0)
  }

  function Turns(presses: seq<Press>): nat {
    if presses == [] then 0
    else Turns(presses[..|presses| - 1]) + if presses[|presses| - 1].Mirror? then 0 else 1
  }

  function Mirrors(presses: seq<Press>): nat {
    if presses == [] then 0
    else Mirrors(presses[..|presses| - 1]) + if presses[|presses| - 1].Mirror? then 1 else 0
  }

  function Determinant(m: Matrix): real {
    m.a * m.d - m.b * m.c
  }

  /** A signed permutation that exchanges the axes. */
  predicate Sideways(m: Matrix) {
    m.a == 0.0
  }

  /** A signed permutation that turns the page over. */
  predicate Flips(m: Matrix) {
    if m.b == 0.0 then m.a != m.d else m.b == m.c
  }

  lemma FlipsIsNegativeDeterminant(m: Matrix)
    requires SignedPermutation(m)
    ensures Determinant(m) == if Flips(m) then -1.0 else 1.0
  {
  }

  lemma PressKeepsSignedPermutation(m: Matrix, press: Press)
    requires SignedPermutation(m)
    ensures SignedPermutation(Pressed(m, press))
    ensures Sideways(Pressed(m, press)) <==> (if press.Mirror? then Sideways(m) else !Sideways(m))
    ensures Flips(Pressed(m, press)) <==> (if press.Mirror? then !Flips(m) else Flips(m))
  {
  }

  /**
   After any presses the matrix is a signed permutation; width and height are exchanged exactly after an odd
   number of rotations, and the page is turned over exactly after an odd number of mirrorings.
   */
  lemma {:induction false} PressesKeepSignedPermutation(presses: seq<Press>)
    ensures SignedPermutation(After(presses))
    ensures Sideways(After(presses)) <==> Turns(presses) % 2 == 1
    ensures Flips(After(presses)) <==> Mirrors(presses) % 2 == 1
  {
    if presses != [] {
      var before := presses[..|presses| - 1];
      PressesKeepSignedPermutation(before);
      PressKeepsSignedPermutation(After(before), presses[|presses| - 1]);
    }
  }

  /** `turns` quarter turns to the right, after a mirroring if `mirrored`. */
  function Normal(turns: int, mirrored: bool): Matrix
    requires 0 <= turns < 4
  {
    var s := if mirrored then -1.0 else 1.0;
    if turns == 0 then Matrix(s, 0.0, 0.0, 1.0)
    else if turns == 1 then Matrix(0.0, 1.0, -s, 0.0)
    else if turns == 2 then Matrix(-s, 0.0, 0.0, -1.0)
    else Matrix(0.0, -1.0, s, 0.0)
  }

  /** The quarter turns a press leaves: a mirroring reverses the sense of the turns made before it. */
  function NextTurns(turns: int, press: Press): (next: int)
    requires 0 <= turns < 4
    ensures 0 <= next < 4
  {
    match press
    case RotateLeft => if turns == 0 then 3 else turns - 1
    case RotateRight => if turns == 3 then 0 else turns + 1
    case Mirror => if turns == 0 then 0 else 4 - turns
  }

  function Net(presses: seq<Press>): (turns: int)
    ensures 0 <= turns < 4
  {
    if presses == [] then 0 else NextTurns(Net(presses[..|presses| - 1]), presses[|presses| - 1])
  }

  lemma PressOfNormal(turns: int, mirrored: bool, press: Press)
    requires 0 <= turns < 4
    ensures Pressed(Normal(turns, mirrored), press) == Normal(NextTurns(turns, press), mirrored != press.Mirror?)
  {
  }

  /** The matrix depends on nothing but the net turns and the parity of mirrorings. */
  lemma {:induction false} PressesHaveNormalForm(presses: seq<Press>)
    ensures After(presses) == Normal(Net(presses), Mirrors(presses) % 2 == 1)
  {
    if presses != [] {
      var before := presses[..|presses| - 1];
      PressesHaveNormalForm(before);
      PressOfNormal(Net(before), Mirrors(before) % 2 == 1, presses[|presses| - 1]);
    }
  }

  /** Each of the eight signed permutations is reached: so many right turns, after a mirroring if it flips. */
  lemma EverySignedPermutationIsReached(m: Matrix) returns (presses: seq<Press>)
    requires SignedPermutation(m)
    ensures After(presses) == m
  {
    var first: seq<Press> := if Flips(m) then [Mirror] else [];
    assert first != [] ==> first[..0] == [];
    var one, two, three := first + [RotateRight], first + [RotateRight, RotateRight],
                           first + [RotateRight, RotateRight, RotateRight];
    assert one[..|one| - 1] == first && two[..|two| - 1] == one && three[..|three| - 1] == two;
    NormalCoversAll(m);
    assert After(first) == Normal(0, Flips(m));
    PressOfNormal(0, Flips(m), RotateRight);
    PressOfNormal(1, Flips(m), RotateRight);
    PressOfNormal(2, Flips(m), RotateRight);
    assert After(one) == Normal(1, Flips(m));
    assert After(two) == Normal(2, Flips(m));
    assert After(three) == Normal(3, Flips(m));
    presses := if Normal(0, Flips(m)) == m then first else if Normal(1, Flips(m)) == m then one
               else if Normal(2, Flips(m)) == m then two else three;
  }

  lemma NormalCoversAll(m: Matrix)
    requires SignedPermutation(m)
    ensures m == Normal(0, Flips(m)) || m == Normal(1, Flips(m)) || m == Normal(2, Flips(m)) || m == Normal(3, Flips(m))
  {
  }

  /** The part of `CImageItem` the buttons change. */
  class ItemTransform {
    var transform: Matrix
    ghost var presses: seq<Press>

    ghost predicate Valid()
      reads this
    {
      transform == After(presses)
    }

    constructor ()
      ensures Valid() && presses == []
    {
      transform, presses := Identity(), [];
    }

    method RotateLeftClicked()
      requires Valid()
      modifies this
      ensures Valid() && presses == old(presses) + [RotateLeft]
    {
      transform := Pressed(transform, RotateLeft);
      Record(RotateLeft);
    }

    method RotateRightClicked()
      requires Valid()
      modifies this
      ensures Valid() && presses == old(presses) + [RotateRight]
    {
      transform := Pressed(transform, RotateRight);
      Record(RotateRight);
    }

    method MirrorClicked()
      requires Valid()
      modifies this
      ensures Valid() && presses == old(presses) + [Mirror]
    {
      transform := Pressed(transform, Mirror);
      Record(Mirror);
    }

    ghost method Record(press: Press)
      requires transform == Pressed(After(presses), press)
      modifies this`presses
      ensures Valid() && presses == old(presses) + [press]
    {
      var was := presses;
      presses := presses + [press];
      assert presses[..|presses| - 1] == was;
    }
  }
}
