/**
 * NaNResult: a descriptor result that stands for `size` missing (NaN)
 * values, and its comma-separated text form.
 */
module NaNResults {
  import opened Wrappers
  import opened Strings

  /** The exception the sized constructor throws. */
  datatype Error = IllegalAccess(message: string)

  /** A result of `size` NaN values; the constructors keep `size >= 1`. */
  datatype NaNResult = NaNResult(size: int)

  /** The token printed for one missing value. */
  const NaN: string := "NaN"

  /** `n` copies of the NaN token. */
  function Tokens(n: nat): (r: seq<string>)
    ensures |r| == n
    ensures forall i :: 0 <= i < n ==> r[i] == NaN
  {
    if n == 0 then [] else Tokens(n - 1) + [NaN]
  }

  /** The sized constructor: a size below one throws, otherwise the result has that length. */
  function Create(size: int): (r: Result<NaNResult, Error>)
    ensures r.Err? <==> size < 1
    ensures r.Ok? ==> Length(r.value) == size
  {
    if size < 1 then Err(IllegalAccess("Size must be one or larger."))
    else Ok(NaNResult(size))
  }

  /** The no-argument constructor: a single NaN value. */
  function Single(): (r: NaNResult)
    ensures Create(1) == Ok(r)
    ensures Length(r) == 1
  {
    NaNResult(1)
  }

  /** `length()`: the number of NaN values. */
  function Length(r: NaNResult): int
  {
    r.size
  }

  /**
   * `toString()`: the NaN tokens joined by commas, built by appending to a
   * buffer. A size of one returns the literal "NaN" directly.
   */
  method ToString(r: NaNResult) returns (s: string)
    requires r.size >= 1
    ensures s == Join(Tokens(r.size), ',')
  {
    if r.size == 1 {
      return NaN;
    }
    var buf := "";
    var i := 0;
    while i < Length(r)
      invariant 0 <= i <= r.size
      invariant i == 0 ==> buf == ""
      invariant 0 < i < r.size ==> buf == Join(Tokens(i), ',') + [',']
      invariant i == r.size ==> buf == Join(Tokens(i), ',')
    {
      if i > 0 {
        JoinStep(i);
      }
      buf := buf + NaN;
      if i + 1 < Length(r) {
        buf := buf + [','];
      }
      i := i + 1;
    }
    s := buf;
  }

  /** One more value adds a comma and a token at the end. */
  lemma JoinStep(n: nat)
    requires n >= 1
    ensures Join(Tokens(n + 1), ',') == Join(Tokens(n), ',') + [','] + NaN
  {
    assert Tokens(n + 1)[..n] == Tokens(n);
  }

  /**
   * The text of `n` NaN values has no leading or trailing comma: it is
   * `4n - 1` characters long and splits at the commas back into exactly
   * `n` NaN tokens.
   */
  lemma TextShape(n: int)
    requires n >= 1
    ensures |Join(Tokens(n), ',')| == 4 * n - 1
    ensures Split(Join(Tokens(n), ','), ',') == Tokens(n)
  {
    JoinLength(Tokens(n), ',', 3);
    SplitJoin(Tokens(n), ',');
  }

  /** The two texts the unit tests expect, for one and for three values. */
  lemma TestTexts()
    ensures Join(Tokens(Length(Single())), ',') == "NaN"
    ensures Join(Tokens(3), ',') == "NaN,NaN,NaN"
  {
  }
}
