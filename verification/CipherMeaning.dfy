/** The stream cipher in plain numbers: the key schedule and the byte step, without the functions that compute them. */
module CipherMeaning {
  import opened Bytes
  import opened Md4
  import opened Cipher

  /** A number as a byte holds it. */
  function Wrap(n: nat): (r: nat)
    ensures r < 256
  {
    n % 256
  }

  lemma SumWraps(a: byte, b: byte)
    ensures Num(Plus(a, b)) == Wrap(Num(a) + Num(b))
  {
    hide Num, Plus;
    SumNum(a, b);
  }

  lemma SumOfThree(a: byte, b: byte, c: byte)
    ensures Num(Plus(a, Plus(b, c))) == Wrap(Num(a) + Num(c) + Num(b))
  {
    hide Num, Plus, Wrap;
    SumWraps(b, c);
    SumWraps(a, Plus(b, c));
    WrapInside(Num(a), Num(b) + Num(c));
    assert Num(a) + (Num(b) + Num(c)) == Num(a) + Num(c) + Num(b);
  }

  lemma WrapInside(a: nat, b: nat)
    ensures Wrap(a + Wrap(b)) == Wrap(a + b)
  {
  }

  lemma WrapCancels(a: nat, x: nat, y: nat)
    requires x < 256 && y < 256 && Wrap(a + x) == Wrap(a + y)
    ensures x == y
  {
  }

  // ----- The key schedule -----

  /** It starts from the identity with index 0. */
  lemma ScheduleStarts(key: Key, k: nat)
    requires k < 256
    ensures Num(RunSchedule(key, 0).box[k]) == k && Num(RunSchedule(key, 0).index) == 0
  {
    ByteRoundTrip(k);
  }

  /** Step `n` adds the box byte at `n` and the key byte at `n % 16` to the index, modulo 256. */
  lemma IndexMeaning(key: Key, n: nat)
    requires n < 256
    ensures var s, s' := RunSchedule(key, n), RunSchedule(key, n + 1);
      Num(s'.index) == Wrap(Num(s.index) + Num(s.box[n]) + Num(key[n % 16]))
  {
    hide RunSchedule, Num, Plus, ScheduleStep, Wrap;
    var s := RunSchedule(key, n);
    ScheduleUnfolds(key, n);
    IndexIs(key, n, s);
    SumOfThree(s.index, key[n % 16], s.box[n]);
  }

  /** And it exchanges place `n` of the box with the place of the new index. */
  lemma ScheduleMeaning(key: Key, n: nat) returns (j: nat)
    requires n < 256
    ensures var s, s' := RunSchedule(key, n), RunSchedule(key, n + 1);
      && j == Wrap(Num(s.index) + Num(s.box[n]) + Num(key[n % 16])) && j < 256 && Num(s'.index) == j
      && s'.box[n] == s.box[j] && s'.box[j] == s.box[n]
      && forall k :: 0 <= k < 256 && k != n && k != j ==> s'.box[k] == s.box[k]
  {
    hide RunSchedule, Num, Plus, ScheduleStep, Wrap;
    j := Num(RunSchedule(key, n + 1).index);
    IndexMeaning(key, n);
    ScheduleUnfolds(key, n);
    StepSwaps(key, n, RunSchedule(key, n));
  }

  lemma ScheduleUnfolds(key: Key, n: nat)
    requires n < 256
    ensures RunSchedule(key, n + 1) == ScheduleStep(key, n, RunSchedule(key, n))
  {
    hide ScheduleStep;
  }

  lemma IndexIs(key: Key, n: nat, s: Schedule)
    requires n < 256
    ensures ScheduleStep(key, n, s).index == Plus(s.index, Plus(key[n % 16], s.box[n]))
  {
    hide Num, Plus, Swap;
  }

  lemma StepSwaps(key: Key, n: nat, s: Schedule)
    requires n < 256
    ensures var s' := ScheduleStep(key, n, s); var j := Num(s'.index);
      && s'.box[n] == s.box[j] && s'.box[j] == s.box[n]
      && forall k :: 0 <= k < 256 && k != n && k != j ==> s'.box[k] == s.box[k]
  {
    hide Num, ScheduleIndex;
  }

  /** The schedule depends on every key byte: equal runs come from equal keys. */
  lemma {:induction false} ScheduleTellsKeys(x: Key, y: Key, n: nat)
    requires n <= 16 && forall m: nat :: m <= n ==> RunSchedule(x, m) == RunSchedule(y, m)
    ensures forall k :: 0 <= k < n ==> x[k] == y[k]
  {
    hide RunSchedule, Num, Wrap;
    if n > 0 {
      ScheduleTellsKeys(x, y, n - 1);
      var s := RunSchedule(x, n - 1);
      assert RunSchedule(x, n) == RunSchedule(y, n) && s == RunSchedule(y, n - 1);
      IndexMeaning(x, n - 1);
      IndexMeaning(y, n - 1);
      assert (n - 1) % 16 == n - 1;
      WrapCancels(Num(s.index) + Num(s.box[n - 1]), Num(x[n - 1]), Num(y[n - 1]));
      SameNum(x[n - 1], y[n - 1]);
    }
  }

  lemma SameNum(a: byte, b: byte)
    ensures Num(a) == Num(b) ==> a == b
  {
    NumAs(a);
    NumAs(b);
  }

  lemma NumAs(b: byte)
    ensures Num(b) as byte == b
  {
  }

  // ----- The byte step -----

  /** The cipher starts from the scheduled box of the key's MD4 digest, with both indexes and the fed-back byte zero. */
  lemma StreamStarts(data: seq<byte>, key: KeyBlock)
    ensures var s := Stream(RunSchedule(Md4Of(key), 256).box, 0, 0, 0);
      Encrypt(data, key) == Run(s, data, true).1 && Decrypt(data, key) == Run(s, data, false).1
  {
    hide RunSchedule, Md4Of, Run;
  }

  /**
   * One byte: step i on, add the box byte there to the fed-back byte, step j on by the result p, and read the output at
   * S[j] + p once place i has taken what place j held and place j has taken p. What is fed back is the ciphertext byte.
   */
  lemma StepMeaning(s: Stream, x: byte, encrypt: bool) returns (i: nat, p: nat, j: nat, t: nat)
    ensures i < 256 && j < 256 && t < 256
    ensures i == Wrap(Num(s.stateIndex) + 1) && p == Wrap(Num(s.previous) + Num(s.box[i]))
    ensures j == Wrap(Num(s.streamIndex) + p) && t == Wrap(Num(s.box[j]) + p)
    ensures var (s', y) := StreamStep(s, x, encrypt);
      && Num(s'.stateIndex) == i && Num(s'.streamIndex) == j
      && Num(s'.box[j]) == p && (i != j ==> s'.box[i] == s.box[j])
      && (forall k :: 0 <= k < 256 && k != i && k != j ==> s'.box[k] == s.box[k])
      && y == s'.box[t] ^ x && s'.previous == if encrypt then y else x
  {
    hide Num, Advance, Plus, Wrap;
    var index := Plus(s.stateIndex, 1);
    NumOne();
    SumWraps(s.stateIndex, 1);
    i := Num(index);
    var sum := Plus(s.previous, s.box[i]);
    SumWraps(s.previous, s.box[i]);
    p := Num(sum);
    var stream := Plus(s.streamIndex, sum);
    SumWraps(s.streamIndex, sum);
    j := Num(stream);
    SumWraps(s.box[j], sum);
    t := Num(Plus(s.box[j], sum));
    AdvanceMeans(s.box, i, j, sum);
  }

  lemma NumOne()
    ensures Num(1) == 1
  {
  }

  lemma AdvanceMeans(box: Box, i: nat, j: nat, p: byte)
    requires i < 256 && j < 256
    ensures var b := Advance(box, i, j, p);
      b[j] == p && (i != j ==> b[i] == box[j]) && forall k :: 0 <= k < 256 && k != i && k != j ==> b[k] == box[k]
  {
  }

  /** The transform is that step, byte after byte. */
  lemma RunMeaning(s: Stream, data: seq<byte>, x: byte, encrypt: bool)
    ensures Run(s, [], encrypt) == (s, [])
    ensures var (before, head) := Run(s, data, encrypt); var (after, y) := StreamStep(before, x, encrypt);
      Run(s, data + [x], encrypt) == (after, head + [y])
  {
    hide StreamStep;
    assert (data + [x])[..|data|] == data;
  }
}
