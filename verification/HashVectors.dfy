/** Known values of the hash of brain/src/embeddings.rs, and what each place of a hashed vector holds. */
module HashVectors {
  import opened Numbers
  import opened HashEmbed
  import opened HashEmbedLaws

  /** Published FNV-1a values: of the empty text, of "a" and of "foobar". */
  lemma KnownHashes()
    ensures Fnv(OFFSET, []) == 0xcbf2_9ce4_8422_2325
    ensures Fnv(OFFSET, [0x61]) == 0xaf63_dc4c_8601_ec8c
    ensures Fnv(OFFSET, [0x66, 0x6f, 0x6f, 0x62, 0x61, 0x72]) == 0x8594_4171_f739_67e8
  {
    FnvOne(OFFSET, 0x61);
    StepOfA();
    FirstStep();
    SecondStep();
    ThirdStep();
    FourthStep();
    FifthStep();
    SixthStep();
    FnvSix(OFFSET, 0x66, 0x6f, 0x6f, 0x62, 0x61, 0x72);
  }

  lemma StepOfA()
    ensures FnvStep(OFFSET, 0x61) == 0xaf63_dc4c_8601_ec8c
  {
    assert Xor(0x25, 0x61) == 0x44;
    StepIs(OFFSET, 0x61, 0x25, 0x44, 0xcbf29ce5de, 0xaf63_dc4c_8601_ec8c);
  }

  lemma StepIs(h: nat, b: Byte, low: Byte, x: Byte, q: nat, r: nat)
    requires h % 256 == low && Xor(low, b) == x && r < U64
    requires (h - low + x) * 0x100_0000_01b3 == q * U64 + r
    ensures FnvStep(h, b) == r
  {
    Remainder(q, r);
  }

  lemma Remainder(q: nat, r: nat)
    requires r < U64
    ensures (q * U64 + r) % U64 == r
  {
  }

  lemma FirstStep()
    ensures FnvStep(0xcbf2_9ce4_8422_2325, 0x66) == 0xaf63_db4c_8601_ead9
  {
    assert Xor(0x25, 0x66) == 0x43;
    StepIs(0xcbf2_9ce4_8422_2325, 0x66, 0x25, 0x43, 0xcbf29ce5de, 0xaf63_db4c_8601_ead9);
  }

  lemma SecondStep()
    ensures FnvStep(0xaf63_db4c_8601_ead9, 0x6f) == 0x0898_5907_b541_d342
  {
    assert Xor(0xd9, 0x6f) == 0xb6;
    StepIs(0xaf63_db4c_8601_ead9, 0x6f, 0xd9, 0xb6, 0xaf63db4db0, 0x0898_5907_b541_d342);
  }

  lemma ThirdStep()
    ensures FnvStep(0x0898_5907_b541_d342, 0x6f) == 0xdcb2_7518_fed9_d577
  {
    assert Xor(0x42, 0x6f) == 0x2d;
    StepIs(0x0898_5907_b541_d342, 0x6f, 0x42, 0x2d, 0x8985907c3, 0xdcb2_7518_fed9_d577);
  }

  lemma FourthStep()
    ensures FnvStep(0xdcb2_7518_fed9_d577, 0x62) == 0xdd12_0e79_0c25_12af
  {
    assert Xor(0x77, 0x62) == 0x15;
    StepIs(0xdcb2_7518_fed9_d577, 0x62, 0x77, 0x15, 0xdcb2751a75, 0xdd12_0e79_0c25_12af);
  }

  lemma FifthStep()
    ensures FnvStep(0xdd12_0e79_0c25_12af, 0x61) == 0xcac1_65af_a2fe_f40a
  {
    assert Xor(0xaf, 0x61) == 0xce;
    StepIs(0xdd12_0e79_0c25_12af, 0x61, 0xaf, 0xce, 0xdd120e7a83, 0xcac1_65af_a2fe_f40a);
  }

  lemma SixthStep()
    ensures FnvStep(0xcac1_65af_a2fe_f40a, 0x72) == 0x8594_4171_f739_67e8
  {
    assert Xor(0x0a, 0x72) == 0x78;
    StepIs(0xcac1_65af_a2fe_f40a, 0x72, 0x0a, 0x78, 0xcac165b0fb, 0x8594_4171_f739_67e8);
  }

  lemma FnvOne(h: nat, a: Byte)
    ensures Fnv(h, [a]) == FnvStep(h, a)
  {
    assert [a][1..] == [];
  }

  lemma FnvCons(h: nat, a: Byte, rest: Text)
    ensures Fnv(h, [a] + rest) == Fnv(FnvStep(h, a), rest)
  {
    assert ([a] + rest)[1..] == rest;
  }

  lemma FnvSix(h: nat, a: Byte, b: Byte, c: Byte, d: Byte, e: Byte, f: Byte)
    ensures Fnv(h, [a, b, c, d, e, f])
         == FnvStep(FnvStep(FnvStep(FnvStep(FnvStep(FnvStep(h, a), b), c), d), e), f)
  {
    FnvCons(h, a, [b, c, d, e, f]);
    FnvCons(FnvStep(h, a), b, [c, d, e, f]);
    FnvCons(FnvStep(FnvStep(h, a), b), c, [d, e, f]);
    FnvCons(FnvStep(FnvStep(FnvStep(h, a), b), c), d, [e, f]);
    FnvCons(FnvStep(FnvStep(FnvStep(FnvStep(h, a), b), c), d), e, [f]);
    FnvOne(FnvStep(FnvStep(FnvStep(FnvStep(FnvStep(h, a), b), c), d), e), f);
    assert [a] + [b, c, d, e, f] == [a, b, c, d, e, f] && [b] + [c, d, e, f] == [b, c, d, e, f];
    assert [c] + [d, e, f] == [c, d, e, f] && [d] + [e, f] == [d, e, f] && [e] + [f] == [e, f];
  }

  /** All 384 buckets are reached, and two hashes share one if and only if they differ by a multiple of 384. */
  lemma BucketsDivide(h: nat, k: nat, w: real)
    ensures StepOf(h, w).bucket == StepOf(k, w).bucket <==> (h - k) % 384 == 0
    ensures h < 384 ==> StepOf(h, w).bucket == h
  {
  }

  // ----- what each place holds -----

  /** The tokens of two bytes or more whose hash falls into a bucket. */
  ghost function TokensIn(tokens: seq<Text>, i: nat): set<nat> {
    set k | 0 <= k < |tokens| && |tokens[k]| >= 2 && Fnv(OFFSET, tokens[k]) % 384 == i
  }

  /** The first `n` windows of three bytes whose hash falls into a bucket. */
  ghost function WindowsIn(bytes: Text, n: nat, i: nat): set<nat>
    requires n == 0 || n + 2 <= |bytes|
  {
    set k | 0 <= k < n && WindowHash(bytes, k) % 384 == i
  }

  /** The hash of the three bytes from position `k` on. */
  ghost function WindowHash(bytes: Text, k: nat): nat
    requires k + 3 <= |bytes|
  {
    Fnv(OFFSET, bytes[k..k + 3])
  }

  ghost function SignOf(i: nat): real {
    if i % 2 == 0 then 1.0 else -1.0
  }

  /** What the steps add to a place. */
  ghost function Added(steps: seq<Step>, i: nat): real {
    if steps == [] then 0.0
    else Added(steps[..|steps| - 1], i) + if steps[|steps| - 1].bucket == i then steps[|steps| - 1].delta else 0.0
  }

  lemma AddedSnoc(steps: seq<Step>, s: Step, i: nat)
    ensures Added(steps + [s], i) == Added(steps, i) + if s.bucket == i then s.delta else 0.0
  {
    assert (steps + [s])[..|steps|] == steps;
  }

  lemma {:induction false} AddAllAt(v: seq<real>, steps: seq<Step>, i: nat)
    requires |v| == DIM && InRange(steps) && i < DIM
    ensures AddAll(v, steps)[i] == v[i] + Added(steps, i)
  {
    if steps != [] {
      AddAllAt(v, steps[..|steps| - 1], i);
    }
  }

  lemma StepAdds(h: nat, w: real, i: nat)
    requires i < DIM
    ensures (if StepOf(h, w).bucket == i then StepOf(h, w).delta else 0.0)
         == if h % 384 == i then SignOf(i) * w else 0.0
  {
    BucketParity(h);
  }

  lemma OneMore(c: nat, w: real, s: real)
    ensures s * (c as real * w) + s * w == s * ((c + 1) as real * w)
  {
  }

  lemma {:induction false} TokensAdd(tokens: seq<Text>, i: nat)
    requires i < DIM
    ensures Added(TokenSteps(tokens), i) == SignOf(i) * (|TokensIn(tokens, i)| as real * 1.0)
  {
    if tokens != [] {
      var n := |tokens| - 1;
      var init, t := tokens[..n], tokens[n];
      TokensAdd(init, i);
      TokensInNext(tokens, i);
      if |t| >= 2 {
        AddedSnoc(TokenSteps(init), StepOf(Fnv(OFFSET, t), 1.0), i);
        StepAdds(Fnv(OFFSET, t), 1.0, i);
        OneMore(|TokensIn(init, i)|, 1.0, SignOf(i));
      } else {
        assert TokenSteps(init) + [] == TokenSteps(init);
      }
    }
  }

  lemma TokensInNext(tokens: seq<Text>, i: nat)
    requires tokens != []
    ensures
      var t, init := tokens[|tokens| - 1], tokens[..|tokens| - 1];
      |TokensIn(tokens, i)| == |TokensIn(init, i)| + if |t| >= 2 && Fnv(OFFSET, t) % 384 == i then 1 else 0
  {
    var n := |tokens| - 1;
    var init := tokens[..n];
    var one: set<nat> := if |tokens[n]| >= 2 && Fnv(OFFSET, tokens[n]) % 384 == i then {n} else {};
    assert TokensIn(tokens, i) == TokensIn(init, i) + one;
  }

  lemma WindowsInNext(bytes: Text, n: nat, i: nat)
    requires n > 0 && n + 2 <= |bytes|
    ensures |WindowsIn(bytes, n, i)|
         == |WindowsIn(bytes, n - 1, i)| + if WindowHash(bytes, n - 1) % 384 == i then 1 else 0
  {
    var one: set<nat> := if WindowHash(bytes, n - 1) % 384 == i then {n - 1} else {};
    assert WindowsIn(bytes, n, i) == WindowsIn(bytes, n - 1, i) + one;
  }

  lemma {:induction false} WindowsAdd(bytes: Text, n: nat, i: nat)
    requires i < DIM && (n == 0 || n + 2 <= |bytes|)
    ensures Added(TrigramSteps(bytes, n), i) == SignOf(i) * (|WindowsIn(bytes, n, i)| as real * 0.5)
  {
    if n > 0 {
      var h := Fnv(OFFSET, bytes[n - 1..n + 2]);
      WindowsAdd(bytes, n - 1, i);
      WindowsInNext(bytes, n, i);
      AddedSnoc(TrigramSteps(bytes, n - 1), StepOf(h, 0.5), i);
      StepAdds(h, 0.5, i);
      OneMore(|WindowsIn(bytes, n - 1, i)|, 0.5, SignOf(i));
    }
  }

  /** Before scaling, a place counts the tokens of two bytes or more and half the windows of three bytes that hash to
      it, with the sign of its parity. */
  lemma RawAt(tokens: seq<Text>, bytes: Text, i: nat)
    requires i < 384
    ensures
      var windows := if |bytes| < 3 then 0 else |bytes| - 2;
      Raw(tokens, bytes)[i]
      == SignOf(i) * (|TokensIn(tokens, i)| as real + |WindowsIn(bytes, windows, i)| as real * 0.5)
  {
    TokensAdd(tokens, i);
    WindowsAdd(bytes, Windows(bytes), i);
    AddAllAt(Zeros(DIM), TokenSteps(tokens), i);
    AddAllAt(AddAll(Zeros(DIM), TokenSteps(tokens)), TrigramSteps(bytes, Windows(bytes)), i);
    Join(SignOf(i), |TokensIn(tokens, i)| as real, |WindowsIn(bytes, Windows(bytes), i)| as real * 0.5);
  }

  lemma Join(s: real, a: real, b: real)
    ensures s * (a * 1.0) + s * b == s * (a + b)
  {
  }
}
