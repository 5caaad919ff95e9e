/**
 * The proof-of-work puzzle of Blockchain.valid_proof: the SHA-256 hex digest of
 * the two proofs' decimal numerals, written one after the other, must start
 * with "0000".
 */
module Proof {
  import opened Library
  import opened Decimal

  /** The text that is hashed: f'{lastProof}{proof}'. */
  function Guess(lastProof: int, proof: int): string {
    DecimalString(lastProof) + DecimalString(proof)
  }

  predicate ValidProof(lib: Primitives, lastProof: int, proof: int) {
    Head(lib.sha256Hex(Guess(lastProof, proof)), 4) == "0000"
  }

  /** Some non-negative proof solves the puzzle for lastProof, so the ascending search stops. */
  ghost predicate Solvable(lib: Primitives, lastProof: int) {
    exists p :: p >= 0 && ValidProof(lib, lastProof, p)
  }

  /** The verdict depends on nothing but the concatenated numerals. */
  lemma VerdictFollowsGuess(lib: Primitives, a: int, b: int, c: int, d: int)
    requires Guess(a, b) == Guess(c, d)
    ensures ValidProof(lib, a, b) == ValidProof(lib, c, d)
  {
  }

  /**
   * The concatenation is ambiguous: for a lastProof 10a + d of two or more digits
   * whose last digit d is not 0, moving d to the front of a non-negative proof b
   * leaves the hashed text, and with it the verdict, unchanged, whatever the hash
   * function is.
   */
  lemma ShiftedDigitSameVerdict(lib: Primitives, a: nat, d: nat, b: nat)
    requires a >= 1 && 1 <= d <= 9
    ensures Guess(10 * a + d, b) == Guess(a, PrependDigit(d, b))
    ensures ValidProof(lib, 10 * a + d, b) == ValidProof(lib, a, PrependDigit(d, b))
  {
    ShiftedGuess(a, d, b, 10 * a + d, PrependDigit(d, b));
    VerdictFollowsGuess(lib, 10 * a + d, b, a, PrependDigit(d, b));
  }

  lemma ShiftedGuess(a: nat, d: nat, b: nat, x: int, y: int)
    requires a >= 1 && 1 <= d <= 9 && x == 10 * a + d && y == PrependDigit(d, b)
    ensures Guess(x, b) == Guess(a, y)
  {
    TrailingDigit(a, d);
    LeadingDigit(d, b);
    var c := DigitChar(d);
    assert DecimalString(x) == Digits(a) + [c];
    assert DecimalString(y) == [c] + Digits(b);
    assert Digits(a) + [c] + Digits(b) == Digits(a) + ([c] + Digits(b));
  }

  /** The pairs (12, 3) and (1, 23) both hash the text "123". */
  lemma TwelveThreeIsOneTwentyThree(lib: Primitives)
    ensures Guess(12, 3) == "123" == Guess(1, 23)
    ensures ValidProof(lib, 12, 3) == ValidProof(lib, 1, 23)
  {
    assert Digits(3) == "3";
    ShiftedDigitSameVerdict(lib, 1, 2, 3);
    assert Digits(12) == "12" by { TrailingDigit(1, 2); }
  }
}
