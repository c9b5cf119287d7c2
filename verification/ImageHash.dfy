/** An incremental digest: a state that absorbs bytes one at a time (SHA-256 is one such). */
module ImageHash {
  import opened Common

  type Bytes = seq<Byte>

  /** Internal states are coded as numbers. */
  datatype Sha = Sha(init: int, step: (int, Byte) -> int, finish: int -> string) {
    /** Hex encoding of 32 bytes. */
    ghost predicate IsHex() {
      forall s :: |finish(s)| == 64
    }
  }

  function Absorb(h: Sha, state: int, data: Bytes): int {
    if data == [] then state else h.step(Absorb(h, state, data[..|data| - 1]), data[|data| - 1])
  }

  function Digest(h: Sha, data: Bytes): string {
    h.finish(Absorb(h, h.init, data))
  }

  /** Feeding data in pieces gives the state of feeding it at once. */
  lemma {:induction false} AbsorbInPieces(h: Sha, state: int, a: Bytes, b: Bytes)
    ensures Absorb(h, Absorb(h, state, a), b) == Absorb(h, state, a + b)
  {
    if b == [] {
      assert a + b == a;
    } else {
      var front, last := b[..|b| - 1], b[|b| - 1];
      AbsorbInPieces(h, state, a, front);
      assert (a + b)[..|a + b| - 1] == a + front;
    }
  }

  lemma AbsorbNext(h: Sha, body: Bytes, from: nat, to: nat)
    requires from <= to <= |body|
    ensures Absorb(h, Absorb(h, h.init, body[..from]), body[from..to]) == Absorb(h, h.init, body[..to])
  {
    AbsorbInPieces(h, h.init, body[..from], body[from..to]);
    assert body[..from] + body[from..to] == body[..to];
  }
}
