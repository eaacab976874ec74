/**
 * The seeded star field: `seededRandom` is the Park–Miller "minimal
 * standard" Lehmer generator (multiplier 16807, modulus 2^31 - 1) kept as a
 * closure over its state, and `ensureStars` draws 120 stars from it once.
 * The generator's products stay below 2^53, so its JavaScript arithmetic is
 * exact integer arithmetic.
 */
module StarField {
  import Stage

  const Modulus: int := 2147483647
  const Multiplier: int := 16807

  /** Seed of the page's star field. */
  const StarSeed: int := 42
  /** Number of stars. */
  const StarCount: nat := 120

  const BlueStar: string := "#a3e8ff"
  const CreamStar: string := "#fff6d5"

  /** JavaScript `%`: the remainder takes the sign of the dividend. */
  function JsRem(a: int, m: int): (r: int)
    requires m > 0
    ensures a >= 0 ==> 0 <= r < m && r == a % m
    ensures a < 0 ==> -m < r <= 0
  {
    if a >= 0 then a % m else -((-a) % m)
  }

  /** Generator state after `k` draws from `seed`. */
  function LehmerState(seed: int, k: nat): (s: int)
    ensures -Modulus < s < Modulus
    ensures seed >= 0 ==> s >= 0
  {
    if k == 0 then JsRem(seed, Modulus)
    else JsRem(LehmerState(seed, k - 1) * Multiplier, Modulus)
  }

  /** The value a draw returns for the state it leaves behind. */
  function Uniform(state: int): real {
    state as real / Modulus as real
  }

  /** Multiplying by 16807 never turns a state that is not a multiple of the modulus into one. */
  lemma MultiplierKeepsNonZero(s: int)
    requires 0 < s < Modulus
    ensures (s * Multiplier) % Modulus != 0
  {
  }

  /** From a positive seed that is not a multiple of the modulus, every state lies in [1, 2^31 - 2]. */
  lemma {:induction false} StateInRange(seed: int, k: nat)
    requires seed > 0 && seed % Modulus != 0
    ensures 1 <= LehmerState(seed, k) <= Modulus - 1
  {
    if k > 0 {
      StateInRange(seed, k - 1);
      MultiplierKeepsNonZero(LehmerState(seed, k - 1));
    }
  }

  /** Every draw lies strictly between 0 and 1. */
  lemma DrawInUnitInterval(seed: int, k: nat)
    requires seed > 0 && seed % Modulus != 0
    ensures 0.0 < Uniform(LehmerState(seed, k)) < 1.0
  {
    StateInRange(seed, k);
  }

  /** The first draw from seed 42. */
  lemma FirstDrawFromSeed()
    ensures LehmerState(StarSeed, 1) == 705894
  {
  }

  /** The closure returned by `seededRandom`: its state and, for the proof, how it was reached. */
  class SeededRandom {
    var s: int
    ghost const seed: int
    ghost var draws: nat

    ghost predicate Valid()
      reads this
    {
      s == LehmerState(seed, draws)
    }

    constructor (seed: int)
      ensures Valid() && this.seed == seed && draws == 0
    {
      s := JsRem(seed, Modulus);
      this.seed := seed;
      draws := 0;
    }

    /** One call of the closure: advances the state and returns it scaled into the unit interval. */
    method Next() returns (r: real)
      requires Valid()
      modifies this
      ensures Valid() && draws == old(draws) + 1
      ensures r == Uniform(LehmerState(seed, draws))
    {
      s := JsRem(s * Multiplier, Modulus);
      draws := draws + 1;
      r := s as real / Modulus as real;
    }
  }

  /**
   * A star; `p` is its twinkle phase as a fraction of a full turn (the page
   * multiplies the draw by 2 pi).
   */
  datatype Star = Star(x: int, y: int, r: real, p: real, c: string)

  /** A star made from five consecutive draws: x, y, radius, phase, colour. */
  function MakeStar(u1: real, u2: real, u3: real, u4: real, u5: real): (star: Star)
    ensures star.c == BlueStar || star.c == CreamStar
    ensures star.c == BlueStar <==> u5 < 0.2
  {
    Star((u1 * Stage.Width as real).Floor,
         (u2 * Stage.Height as real * 0.75).Floor,
         0.7 + u3 * 1.8,
         u4,
         if u5 < 0.2 then BlueStar else CreamStar)
  }

  /** Star `i` of the field drawn from `seed`: it uses draws 5i+1 to 5i+5. */
  function StarAt(seed: int, i: nat): Star {
    MakeStar(Uniform(LehmerState(seed, 5 * i + 1)), Uniform(LehmerState(seed, 5 * i + 2)),
             Uniform(LehmerState(seed, 5 * i + 3)), Uniform(LehmerState(seed, 5 * i + 4)),
             Uniform(LehmerState(seed, 5 * i + 5)))
  }

  /** The first `n` stars drawn from `seed`. */
  function StarsFrom(seed: int, n: nat): (stars: seq<Star>)
    ensures |stars| == n
  {
    seq(n, i requires 0 <= i < n => StarAt(seed, i))
  }

  /** One more star extends the field by star `n`. */
  lemma StarsFromSnoc(seed: int, n: nat)
    ensures StarsFrom(seed, n + 1) == StarsFrom(seed, n) + [StarAt(seed, n)]
  {
    assert StarsFrom(seed, n + 1)[..n] == StarsFrom(seed, n);
  }

  /** Draws strictly inside the unit interval give a star inside the sky. */
  lemma MakeStarBounds(u1: real, u2: real, u3: real, u4: real, u5: real)
    requires 0.0 < u1 < 1.0 && 0.0 < u2 < 1.0 && 0.0 < u3 < 1.0
    ensures var st := MakeStar(u1, u2, u3, u4, u5);
      0 <= st.x <= 1279 && 0 <= st.y <= 539 && 0.7 < st.r < 2.5
  {
  }

  /** Every star of the page's field lies in the upper three quarters of the canvas, with radius in (0.7, 2.5). */
  lemma StarsInSky(i: nat)
    ensures var st := StarAt(StarSeed, i);
      0 <= st.x <= 1279 && 0 <= st.y <= 539 && 0.7 < st.r < 2.5
  {
    DrawInUnitInterval(StarSeed, 5 * i + 1);
    DrawInUnitInterval(StarSeed, 5 * i + 2);
    DrawInUnitInterval(StarSeed, 5 * i + 3);
    MakeStarBounds(Uniform(LehmerState(StarSeed, 5 * i + 1)), Uniform(LehmerState(StarSeed, 5 * i + 2)),
                   Uniform(LehmerState(StarSeed, 5 * i + 3)), Uniform(LehmerState(StarSeed, 5 * i + 4)),
                   Uniform(LehmerState(StarSeed, 5 * i + 5)));
  }

  /** The animation state held across frames: the session start time and the star field. */
  class AnimState {
    var startMs: real
    var stars: seq<Star>

    constructor ()
      ensures startMs == 0.0 && stars == []
    {
      startMs := 0.0;
      stars := [];
    }

    /** `ensureStars`: fills the field from seed 42 the first time and leaves it alone afterwards. */
    method EnsureStars()
      modifies this
      ensures old(stars) != [] ==> stars == old(stars)
      ensures old(stars) == [] ==> stars == StarsFrom(StarSeed, StarCount)
      ensures startMs == old(startMs)
    {
      if |stars| > 0 {
        return;
      }
      var rnd := new SeededRandom(StarSeed);
      var field: seq<Star> := [];
      var i := 0;
      while i < StarCount
        invariant 0 <= i <= StarCount
        invariant rnd.Valid() && rnd.seed == StarSeed && rnd.draws == 5 * i
        invariant field == StarsFrom(StarSeed, i)
        invariant startMs == old(startMs)
      {
        var x := rnd.Next();
        var y := rnd.Next();
        var r := rnd.Next();
        var p := rnd.Next();
        var c := rnd.Next();
        var star := MakeStar(x, y, r, p, c);
        assert star == StarAt(StarSeed, i);
        StarsFromSnoc(StarSeed, i);
        field := field + [star];
        i := i + 1;
      }
      stars := field;
    }
  }
}
