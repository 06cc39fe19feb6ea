/** The face-match decision: a similarity score between two face images and
    the threshold it must reach. The comparison is a placeholder that draws
    a random score; the draw is a parameter here. */
module FaceRecognition {

  /** The lowest similarity score accepted as a match. */
  const FaceMatchThreshold: real := 0.75

  /** `compareFaces`: `0.6 + Math.random() * 0.4`, whatever the two images
      are; `random` is the value `Math.random()` returned, in [0, 1). */
  function CompareFaces(currentFace: string, storedFace: string, random: real): (score: real)
    requires 0.0 <= random < 1.0
    ensures 0.6 <= score < 1.0
  {
    0.6 + random * 0.4
  }

  /** `isFaceMatched`: the score reaches the threshold. */
  predicate IsFaceMatched(similarityScore: real)
  {
    similarityScore >= FaceMatchThreshold
  }

  /** The threshold itself matches; anything below it, such as 0.74, does
      not. */
  lemma ThresholdIsInclusive()
    ensures IsFaceMatched(0.75)
    ensures !IsFaceMatched(0.74)
    ensures forall s: real :: s < 0.75 ==> !IsFaceMatched(s)
  {
  }

  /** A higher score never turns a match into a mismatch. */
  lemma MatchIsMonotone(s1: real, s2: real)
    requires s1 <= s2 && IsFaceMatched(s1)
    ensures IsFaceMatched(s2)
  {
  }

  /** A score from the comparison is accepted exactly when it is in
      [0.75, 1.0), which is when the random draw is at least 0.375: five
      draws in eight are accepted. */
  lemma AcceptedScores(currentFace: string, storedFace: string, random: real)
    requires 0.0 <= random < 1.0
    ensures var score := CompareFaces(currentFace, storedFace, random);
            IsFaceMatched(score) <==> 0.75 <= score < 1.0
    ensures IsFaceMatched(CompareFaces(currentFace, storedFace, random)) <==> random >= 0.375
  {
  }

  /** The score ignores the images: the same draw gives the same score for
      any two pairs of faces. */
  lemma ScoreIgnoresFaces(a: string, b: string, c: string, d: string, random: real)
    requires 0.0 <= random < 1.0
    ensures CompareFaces(a, b, random) == CompareFaces(c, d, random)
  {
  }
}
