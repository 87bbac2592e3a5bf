/** Pointing relocated references of reloaded code at the variables that already live in the application. */
module Relocation {
  import opened Options

  const TWO31: int := 0x8000_0000
  const TWO32: int := 0x1_0000_0000
  const TWO63: int := 0x8000_0000_0000_0000

  /** The value of the low 32 bits of x as a signed number. */
  function Signed32(x: int): (r: int)
    ensures -TWO31 <= r < TWO31
  {
    (x + TWO31) % TWO32 - TWO31
  }

  /** Which stretch of 2^32 addresses around a multiple of 2^32 an address lies in. */
  function Window(x: int): int { (x + TWO31) / TWO32 }

  predicate FitsInt32(x: int) { -TWO31 <= x < TWO31 }

  lemma SignedWindow(x: int)
    ensures x == Window(x) * TWO32 + Signed32(x)
  {
  }

  lemma SignedIs(x: int, y: int, k: int)
    requires y == x + k * TWO32 && FitsInt32(y)
    ensures Signed32(x) == y
  {
    SignedWindow(x);
  }

  /** Wrapping sums of truncated values keep the low 32 bits. */
  lemma SignedSum(v: int, a: int, b: int)
    ensures Signed32(v + Signed32(a) - Signed32(b)) == Signed32(v + a - b)
  {
    var x, y := v + Signed32(a) - Signed32(b), Signed32(v + a - b);
    SignedWindow(a);
    SignedWindow(b);
    SignedWindow(v + a - b);
    SignedIs(x, y, Window(a) - Window(b) - Window(v + a - b));
  }

  /** The new content of a relocated place, or nothing when the relocation is not applied. `stored` is what the linker
      put there: the distance from `place` to the variable of the new library and an addend, in four or eight bytes. */
  method Apply(size: nat, stored: int, oldVar: int, newVar: int, ghost place: int, ghost addend: int)
    returns (r: Option<int>)
    requires 0 <= oldVar < TWO63 && 0 <= newVar < TWO63
    requires size == 4 ==> FitsInt32(stored)
    requires size == 4 || size == 8 ==> place + stored == newVar + addend
    ensures r.Some? <==> (size == 4 && -TWO31 < oldVar - newVar < TWO31) || size == 8
    ensures size == 4 && r.Some? ==> (place + r.value == oldVar + addend <==> FitsInt32(stored + (oldVar - newVar)))
    ensures size == 8 ==> (place + r.value == oldVar + addend <==> Window(oldVar) == Window(newVar))
  {
    var distance := if oldVar < newVar then newVar - oldVar else oldVar - newVar;
    var maxAllowedDistance := 0;
    if size == 4 {
      maxAllowedDistance := TWO31 - 1;
    } else if size == 8 {
      maxAllowedDistance := TWO63 - 1;
    } else {
      return None;
    }
    if distance > maxAllowedDistance { return None; }
    if size == 4 {
      r := Some(Signed32(stored + Signed32(oldVar) - Signed32(newVar)));
      SignedSum(stored, oldVar, newVar);
      SignedFits(stored + (oldVar - newVar));
    } else {
      r := Some(stored + Signed32(oldVar) - Signed32(newVar));
      SignedWindow(oldVar);
      SignedWindow(newVar);
    }
  }

  lemma SignedFits(x: int)
    ensures Signed32(x) == x <==> FitsInt32(x)
  {
    SignedWindow(x);
  }

  /** The distance check alone does not do: the relocation is applied and misses the variable. */
  lemma CheckedButMissed(place: int)
    ensures var stored, oldVar, newVar := 1, place + TWO31, place + 1;
            && FitsInt32(stored) && place + stored == newVar && oldVar - newVar == TWO31 - 1
            && !FitsInt32(stored + (oldVar - newVar))
            && place + Signed32(stored + Signed32(oldVar) - Signed32(newVar)) == oldVar - TWO32
  {
    SignedSum(1, place + TWO31, place + 1);
    SignedIs(TWO31, -TWO31, -1);
  }

  /** Eight bytes do not help: next to each other, but in different windows. */
  lemma WideMissed(place: int)
    ensures var oldVar, newVar := TWO31, TWO31 - 1;
            var stored := newVar - place;
            && oldVar - newVar == 1 && Window(oldVar) != Window(newVar)
            && place + (stored + Signed32(oldVar) - Signed32(newVar)) == oldVar - TWO32
  {
    SignedIs(TWO31, -TWO31, -1);
    SignedFits(TWO31 - 1);
  }

  /** Nor is the check needed: the relocation is refused although it would reach the variable. */
  lemma RefusedThoughReachable(place: int)
    ensures var stored, oldVar, newVar := -1, place + TWO31 - 1, place - 1;
            && FitsInt32(stored) && place + stored == newVar && oldVar - newVar == TWO31
            && place + Signed32(stored + Signed32(oldVar) - Signed32(newVar)) == oldVar
  {
    SignedSum(-1, place + TWO31 - 1, place - 1);
    SignedFits(TWO31 - 1);
  }
}
