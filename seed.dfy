/** GET /reactions: the reaction shown at a station is chosen by a rolling
    hash of "<journey id>-<station number>", so that the same journey at the
    same station always sees the same reaction. */
module ReactionSeed {
  import opened Common
  import opened Js
  import opened Api

  // ---------------------------------------------------------------------
  // The hash
  // ---------------------------------------------------------------------

  /** The string that is hashed: `${journeyId}-${stationNumber}`. */
  function SeedKey(journeyId: string, stationNumber: int): string {
    journeyId + "-" + NumberToString(stationNumber)
  }

  /** The rolling hash over code units: start from 0, and for each unit c
      set h to the signed 32-bit wrap of 31 * h + c. */
  function Hash(units: seq<CodeUnit>): (h: int)
    ensures IsInt32(h)
  {
    if units == [] then 0
    else ToInt32(31 * Hash(units[..|units| - 1]) + units[|units| - 1])
  }

  /** The hash without any wrapping: the code units read as digits in base
      31, most significant first. */
  function Polynomial(units: seq<CodeUnit>): int {
    if units == [] then 0
    else 31 * Polynomial(units[..|units| - 1]) + units[|units| - 1]
  }

  /** Wrapping after every step gives the same result as wrapping once at the
      end: the hash is the base-31 value of the code units modulo 2^32. */
  lemma {:induction false} HashIsWrappedPolynomial(units: seq<CodeUnit>)
    ensures Hash(units) == ToInt32(Polynomial(units))
  {
    if units != [] {
      var init, c := units[..|units| - 1], units[|units| - 1];
      HashIsWrappedPolynomial(init);
      var h, p := Hash(init), Polynomial(init);
      CongruentStep(h, p, 31, c);
      ToInt32Congruent(31 * h + c, 31 * p + c);
    }
  }

  /** One iteration of the source loop, on the number it holds:
      `hash = (hash << 5) - hash + unit; hash = hash & hash`. */
  function LoopStep(hash: int, unit: CodeUnit): (r: int)
    ensures IsInt32(r)
  {
    var next := ShiftLeft(hash, 5) - hash + unit;
    BitAnd(next, next)
  }

  /** The shift-and-subtract idiom computes 31 * h + c, wrapped to 32 bits. */
  lemma LoopStepIsWrappedStep(hash: int, unit: CodeUnit)
    requires IsInt32(hash)
    ensures LoopStep(hash, unit) == ToInt32(31 * hash + unit)
  {
    var shifted := ShiftLeft(hash, 5);
    assert Pow2(5) == 32;
    assert shifted == ToInt32(hash * 32);
    var next := shifted - hash + unit;
    BitAndSelf(next);
    assert next - (31 * hash + unit) == shifted - hash * 32;
    ToInt32Congruent(next, 31 * hash + unit);
  }

  /** One more loop step hashes one more code unit. */
  lemma LoopStepExtendsHash(units: seq<CodeUnit>, i: nat)
    requires i < |units|
    ensures LoopStep(Hash(units[..i]), units[i]) == Hash(units[..i + 1])
  {
    LoopStepIsWrappedStep(Hash(units[..i]), units[i]);
    assert units[..i + 1][..i] == units[..i];
  }

  /** The seed of a journey at a station: the absolute value of the hash. */
  function Seed(journeyId: string, stationNumber: int): (seed: nat)
    ensures seed <= TwoTo31
  {
    Abs(Hash(Utf16(SeedKey(journeyId, stationNumber))))
  }

  /** `generateDeterministicSeed`: the loop over the code units of the key,
      then `Math.abs`. */
  method GenerateDeterministicSeed(journeyId: string, stationNumber: int) returns (seed: nat)
    ensures seed == Seed(journeyId, stationNumber)
    ensures seed <= TwoTo31
  {
    var str := Utf16(SeedKey(journeyId, stationNumber));
    var hash := 0;
    for i := 0 to |str|
      invariant hash == Hash(str[..i])
    {
      LoopStepExtendsHash(str, i);
      hash := LoopStep(hash, str[i]);
    }
    assert str[..|str|] == str;
    seed := Abs(hash);
  }

  /** A worked value: journey "7" at station 1 hashes "7-1", the code units
      55, 45, 49, to 31 * (31 * 55 + 45) + 49 = 54299. */
  lemma SeedOfJourney7Station1()
    ensures Seed("7", 1) == 54299
    ensures Seed("7", 1) % 10 == 9
  {
    assert Utf16(SeedKey("7", 1)) == [55, 45, 49] by {
      assert SeedKey("7", 1) == "7-1";
      Utf16OfBmp("7-1");
    }
    HashOf7Minus1();
  }

  lemma HashOf7Minus1()
    ensures Hash([55, 45, 49]) == 54299
  {
    var u: seq<CodeUnit> := [55, 45, 49];
    assert Hash(u[..1]) == 55 by {
      assert u[..1][..0] == [];
    }
    assert Hash(u[..2]) == 1750 by {
      assert u[..2][..1] == u[..1];
    }
    assert u[..3] == u;
  }

  // ---------------------------------------------------------------------
  // The route
  // ---------------------------------------------------------------------

  /** A row of `elephant_reactions`. */
  datatype Reaction = Reaction(id: int, reactionText: string, category: string, emotionType: string)

  datatype ReactionResponse = ReactionResponse(
    id: int, reactionText: string, category: string, emotionType: string,
    seed: nat, journeyId: string, stationNumber: int)

  /** The index `seed % reactions.length` into a non-empty pool. */
  function SelectedIndex(seed: nat, n: nat): (i: nat)
    requires n > 0
    ensures i < n
    ensures n == 1 ==> i == 0
    ensures seed < n ==> i == seed
  {
    seed % n
  }

  /** GET /reactions. The journey id and station number are the query
      parameters (None when absent or empty); `pool` is the result of the
      query for active reactions ordered by id, None when the query failed. */
  method GetReaction(journeyId: Option<string>, stationNumber: Option<int>,
                     pool: Option<seq<Reaction>>)
    returns (r: Result<ReactionResponse, ApiError>)
    ensures !Truthy(journeyId) || stationNumber.None? ==>
              r == Failure(ValidationError(MissingParams))
    ensures Truthy(journeyId) && stationNumber.Some? && (pool.None? || pool.value == []) ==>
              r == Failure(InternalError)
    ensures r.Success? <==>
              Truthy(journeyId) && stationNumber.Some? && pool.Some? && pool.value != []
    ensures r.Success? ==>
              var seed := Seed(journeyId.value, stationNumber.value);
              var chosen := pool.value[SelectedIndex(seed, |pool.value|)];
              r.value == ReactionResponse(chosen.id, chosen.reactionText, chosen.category,
                                          chosen.emotionType, seed, journeyId.value,
                                          stationNumber.value)
  {
    if !Truthy(journeyId) || stationNumber.None? {
      return Failure(ValidationError(MissingParams));
    }
    if pool.None? || |pool.value| == 0 {
      return Failure(InternalError);
    }
    var reactions := pool.value;
    var seed := GenerateDeterministicSeed(journeyId.value, stationNumber.value);
    var selected := reactions[seed % |reactions|];
    r := Success(ReactionResponse(selected.id, selected.reactionText, selected.category,
                                  selected.emotionType, seed, journeyId.value,
                                  stationNumber.value));
  }
}
