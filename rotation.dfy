/**
 The byte permutations behind the "mycompression" codec: a rotation of a
 payload left by one byte (what the encoder writes) and right by one byte
 (what the decoder returns), stated as functions on sequences, with the
 facts that each preserves the length and the bytes of its input and that
 each undoes the other.
 */
module Rotation {

  /** The payload rotated left by one byte: every byte moves one place
      towards the front and the first byte goes to the end. */
  function RotateLeft(s: seq<bv8>): (r: seq<bv8>)
    requires |s| > 0
    ensures |r| == |s|
    ensures forall i :: 0 <= i < |s| - 1 ==> r[i] == s[i + 1]
    ensures r[|s| - 1] == s[0]
  {
    s[1..] + [s[0]]
  }

  /** The payload rotated right by one byte: every byte moves one place
      towards the end and the last byte comes to the front. */
  function RotateRight(s: seq<bv8>): (r: seq<bv8>)
    requires |s| > 0
    ensures |r| == |s|
    ensures r[0] == s[|s| - 1]
    ensures forall i :: 0 < i < |s| ==> r[i] == s[i - 1]
  {
    [s[|s| - 1]] + s[..|s| - 1]
  }

  /** A rotation moves bytes around and neither loses nor invents any. */
  lemma RotationsArePermutations(s: seq<bv8>)
    requires |s| > 0
    ensures multiset(RotateLeft(s)) == multiset(s)
    ensures multiset(RotateRight(s)) == multiset(s)
  {
    calc {
      multiset(RotateLeft(s));
      multiset(s[1..]) + multiset([s[0]]);
      { assert s == [s[0]] + s[1..]; }
      multiset(s);
    }
    calc {
      multiset(RotateRight(s));
      multiset([s[|s| - 1]]) + multiset(s[..|s| - 1]);
      { assert s == s[..|s| - 1] + [s[|s| - 1]]; }
      multiset(s);
    }
  }

  /** Decoding what was encoded gives back the payload. */
  lemma RightUndoesLeft(s: seq<bv8>)
    requires |s| > 0
    ensures RotateRight(RotateLeft(s)) == s
  {
  }

  /** Encoding what was decoded gives back the input. */
  lemma LeftUndoesRight(s: seq<bv8>)
    requires |s| > 0
    ensures RotateLeft(RotateRight(s)) == s
  {
  }

  /** Two payloads that encode alike are the same payload, so a reader can
      always tell apart the events written through the codec. */
  lemma RotateLeftInjective(x: seq<bv8>, y: seq<bv8>)
    requires |x| > 0 && |y| > 0
    requires RotateLeft(x) == RotateLeft(y)
    ensures x == y
  {
    RightUndoesLeft(x);
    RightUndoesLeft(y);
  }
}
