/** The modified RC4 with ciphertext feedback, one lane and eight lanes (src/siemens/crypto.cpp). */
module Cipher {
  import opened Bytes
  import opened Md4

  type Box = s: seq<byte> | |s| == 256 witness seq(256, _ => 0)

  type Key = k: seq<byte> | |k| == 16 witness seq(16, _ => 0)

  type KeyBlock = k: seq<byte> | |k| == 64 witness seq(64, _ => 0)

  // ----- Key schedule -----

  datatype Schedule = Schedule(box: Box, index: byte)

  function StartSchedule(): Schedule {
    Schedule(seq(256, k requires 0 <= k < 256 => k as byte), 0)
  }

  function ScheduleIndex(key: Key, n: nat, s: Schedule): byte
    requires n < 256
  {
    Plus(s.index, Plus(key[n % 16], s.box[n]))
  }

  function ScheduleStep(key: Key, n: nat, s: Schedule): Schedule
    requires n < 256
  {
    var index := ScheduleIndex(key, n, s);
    Schedule(Swap(s.box, n, Num(index)), index)
  }

  function RunSchedule(key: Key, n: nat): Schedule
    requires n <= 256
  {
    if n == 0 then StartSchedule() else ScheduleStep(key, n - 1, RunSchedule(key, n - 1))
  }

  function Swap<T>(s: seq<T>, i: nat, j: nat): (r: seq<T>)
    requires i < |s| && j < |s|
    ensures |r| == |s|
  {
    s[i := s[j]][j := s[i]]
  }

  ghost predicate Injective<T>(s: seq<T>) {
    forall i, j :: 0 <= i < j < |s| ==> s[i] != s[j]
  }

  lemma SwapKeepsInjective<T>(s: seq<T>, i: nat, j: nat)
    requires i < |s| && j < |s| && Injective(s)
    ensures Injective(Swap(s, i, j))
  {
  }

  lemma SwapKeepsMultiset<T>(s: seq<T>, i: nat, j: nat)
    requires i < |s| && j < |s|
    ensures multiset(Swap(s, i, j)) == multiset(s)
  {
    assert s[i := s[j]][j := s[i]] == Swap(s, i, j);
  }

  /** Every byte is somewhere in the identity box. */
  lemma StartHasAll(b: byte)
    ensures b in StartSchedule().box
  {
    assert StartSchedule().box[b as nat] == b;
  }

  lemma StartIsPermutation()
    ensures Injective(StartSchedule().box)
  {
    var box := StartSchedule().box;
    forall i, j | 0 <= i < j < 256
      ensures box[i] != box[j]
    {
      ByteRoundTrip(i);
      ByteRoundTrip(j);
    }
  }

  lemma StepIsPermutation(key: Key, n: nat, s: Schedule)
    requires n < 256 && Injective(s.box)
    ensures Injective(ScheduleStep(key, n, s).box)
    ensures multiset(ScheduleStep(key, n, s).box) == multiset(s.box)
  {
    hide Num, Injective, Swap, ScheduleIndex;
    SwapKeepsInjective(s.box, n, Num(ScheduleIndex(key, n, s)));
    SwapKeepsMultiset(s.box, n, Num(ScheduleIndex(key, n, s)));
  }

  /** The key schedule only swaps: its box is a rearrangement of the bytes 0..255. */
  lemma {:induction false} ScheduleIsPermutation(key: Key, n: nat)
    requires n <= 256
    ensures Injective(RunSchedule(key, n).box)
    ensures multiset(RunSchedule(key, n).box) == multiset(StartSchedule().box)
  {
    hide StartSchedule, ScheduleStep, Injective;
    if n == 0 {
      StartIsPermutation();
    } else {
      ScheduleIsPermutation(key, n - 1);
      StepIsPermutation(key, n - 1, RunSchedule(key, n - 1));
    }
  }

  /** So every byte value occurs in it, exactly once. */
  lemma ScheduleHasAll(key: Key, n: nat, b: byte)
    requires n <= 256
    ensures exists i :: 0 <= i < 256 && RunSchedule(key, n).box[i] == b
    ensures forall i, j :: 0 <= i < j < 256 && RunSchedule(key, n).box[i] == b ==> RunSchedule(key, n).box[j] != b
  {
    hide StartSchedule, RunSchedule;
    ScheduleIsPermutation(key, n);
    StartHasAll(b);
    var box := RunSchedule(key, n).box;
    assert b in multiset(box);
    var i :| 0 <= i < |box| && box[i] == b;
    assert |box| == 256;
  }

  // ----- Stream -----

  datatype Stream = Stream(box: Box, stateIndex: byte, streamIndex: byte, previous: byte)

  function Start(key: Key): Stream {
    Stream(RunSchedule(key, 256).box, 0, 0, 0)
  }

  /** The box update of one byte: not a swap. */
  function Advance(box: Box, i: nat, j: nat, p: byte): Box
    requires i < 256 && j < 256
  {
    box[i := box[j]][j := p]
  }

  /** One byte; both directions feed back the ciphertext byte. */
  function StreamStep(s: Stream, x: byte, encrypt: bool): (Stream, byte) {
    var i := Plus(s.stateIndex, 1);
    var p := Plus(s.previous, s.box[Num(i)]);
    var j := Plus(s.streamIndex, p);
    var outputIndex := Plus(s.box[Num(j)], p);
    var box := Advance(s.box, Num(i), Num(j), p);
    var y := box[Num(outputIndex)] ^ x;
    (Stream(box, i, j, if encrypt then y else x), y)
  }

  /** A byte-by-byte transform with state. */
  function RunWith<S, T>(step: (S, T) -> (S, T), s: S, data: seq<T>): (r: (S, seq<T>))
    ensures |r.1| == |data|
  {
    if data == [] then (s, [])
    else
      var n := |data| - 1;
      var r := RunWith(step, s, data[..n]);
      var q := step(r.0, data[n]);
      (q.0, r.1 + [q.1])
  }

  function Stepper(encrypt: bool): (Stream, byte) -> (Stream, byte) {
    (s: Stream, x: byte) => StreamStep(s, x, encrypt)
  }

  function Run(s: Stream, data: seq<byte>, encrypt: bool): (r: (Stream, seq<byte>))
    ensures |r.1| == |data|
  {
    RunWith(Stepper(encrypt), s, data)
  }

  function Encrypt(data: seq<byte>, key: KeyBlock): (r: seq<byte>)
    ensures |r| == |data|
  {
    Run(Start(Md4Of(key)), data, true).1
  }

  function Decrypt(data: seq<byte>, key: KeyBlock): (r: seq<byte>)
    ensures |r| == |data|
  {
    Run(Start(Md4Of(key)), data, false).1
  }

  lemma StepUndoes(s: Stream, x: byte, encrypt: bool)
    ensures StreamStep(s, StreamStep(s, x, encrypt).1, !encrypt) == (StreamStep(s, x, encrypt).0, x)
  {
    hide Num, Advance;
  }

  /** `back` undoes every step of `forth` and moves to the same state. */
  ghost predicate Undoes<S(!new), T(!new)>(forth: (S, T) -> (S, T), back: (S, T) -> (S, T)) {
    forall s, x :: back(s, forth(s, x).1) == (forth(s, x).0, x)
  }

  lemma RunSnoc<S, T>(step: (S, T) -> (S, T), s: S, data: seq<T>, x: T)
    ensures var r := RunWith(step, s, data); var q := step(r.0, x);
      RunWith(step, s, data + [x]) == (q.0, r.1 + [q.1])
  {
    assert (data + [x])[..|data|] == data;
  }

  /** Step-wise inversion lifts to whole messages, because both directions keep the same state at every offset. */
  lemma {:induction false} RunWithUndoes<S(!new), T(!new)>(forth: (S, T) -> (S, T), back: (S, T) -> (S, T), s: S,
      data: seq<T>)
    requires Undoes(forth, back)
    ensures RunWith(back, s, RunWith(forth, s, data).1) == (RunWith(forth, s, data).0, data)
  {
    if data != [] {
      var front, x := data[..|data| - 1], data[|data| - 1];
      var r := RunWith(forth, s, front);
      RunWithUndoes(forth, back, s, front);
      assert data == front + [x];
      RunSnoc(back, s, r.1, forth(r.0, x).1);
    }
  }

  lemma RunUndoes(s: Stream, data: seq<byte>, encrypt: bool)
    ensures Run(s, Run(s, data, encrypt).1, !encrypt) == (Run(s, data, encrypt).0, data)
  {
    hide StreamStep;
    assert Undoes(Stepper(encrypt), Stepper(!encrypt)) by {
      forall st: Stream, x: byte
        ensures Stepper(!encrypt)(st, Stepper(encrypt)(st, x).1) == (Stepper(encrypt)(st, x).0, x)
      {
        StepUndoes(st, x, encrypt);
      }
    }
    RunWithUndoes(Stepper(encrypt), Stepper(!encrypt), s, data);
  }

  lemma DecryptUndoesEncrypt(data: seq<byte>, key: KeyBlock)
    ensures Decrypt(Encrypt(data, key), key) == data
  {
    RunUndoes(Start(Md4Of(key)), data, true);
  }

  lemma EncryptUndoesDecrypt(data: seq<byte>, key: KeyBlock)
    ensures Encrypt(Decrypt(data, key), key) == data
  {
    RunUndoes(Start(Md4Of(key)), data, false);
  }

  /** The transform of a prefix is the prefix of the transform. */
  lemma {:induction false} RunPrefix<S, T>(step: (S, T) -> (S, T), s: S, data: seq<T>, n: nat)
    requires n <= |data|
    ensures RunWith(step, s, data[..n]).1 == RunWith(step, s, data).1[..n]
  {
    if n == |data| {
      assert data[..n] == data;
    } else {
      var m := |data| - 1;
      RunPrefix(step, s, data[..m], n);
      assert data[..m][..n] == data[..n];
    }
  }

  lemma DecryptPrefix(data: seq<byte>, n: nat, key: KeyBlock)
    requires n <= |data|
    ensures Decrypt(data[..n], key) == Decrypt(data, key)[..n]
  {
    RunPrefix(Stepper(false), Start(Md4Of(key)), data, n);
  }

  // ----- The interleaved transform in place -----

  function At(base: nat, stride: nat, lane: nat): nat {
    base + lane * stride
  }

  lemma LanesApart(base: nat, stride: nat, l: nat, m: nat)
    requires l < m
    ensures At(base, stride, l) + stride <= At(base, stride, m)
  {
    var k := m - l - 1;
    assert k * stride >= 0;
    assert (l + 1 + k) * stride == l * stride + stride + k * stride;
  }

  /** A lane's bytes after its first `n` were transformed. */
  function LaneView(s: Stream, slice: seq<byte>, n: nat, encrypt: bool): (view: seq<byte>)
    requires n <= |slice|
    ensures |view| == |slice|
  {
    Run(s, slice[..n], encrypt).1 + slice[n..]
  }

  lemma NextByte<T>(head: seq<T>, y: T, slice: seq<T>, n: nat)
    requires |head| == n < |slice|
    ensures (head + slice[n..])[n] == slice[n]
    ensures head + [y] + slice[n + 1..] == (head + slice[n..])[n := y]
  {
  }

  lemma LaneViewNext(s: Stream, slice: seq<byte>, n: nat, encrypt: bool)
    requires n < |slice|
    ensures LaneView(s, slice, n, encrypt)[n] == slice[n]
    ensures var (s', y) := StreamStep(Run(s, slice[..n], encrypt).0, slice[n], encrypt);
      Run(s, slice[..n + 1], encrypt).0 == s'
        && LaneView(s, slice, n + 1, encrypt) == LaneView(s, slice, n, encrypt)[n := y]
  {
    hide StreamStep;
    RunSnoc(Stepper(encrypt), s, slice[..n], slice[n]);
    assert slice[..n + 1] == slice[..n] + [slice[n]];
    assert slice[..n + 1][..n] == slice[..n];
    var (before, head) := Run(s, slice[..n], encrypt);
    NextByte(head, StreamStep(before, slice[n], encrypt).1, slice, n);
  }

  lemma UpdateInside<T>(s: seq<T>, a: nat, n: nat, k: nat, v: T)
    requires a + n <= |s| && k < n
    ensures s[a + k := v][a..a + n] == s[a..a + n][k := v]
  {
  }

  lemma UpdateOutside<T>(s: seq<T>, a: nat, n: nat, i: nat, v: T)
    requires a + n <= |s| && i < |s| && (i < a || a + n <= i)
    ensures s[i := v][a..a + n] == s[a..a + n]
  {
  }

  ghost predicate LaneDone(data: seq<byte>, image: seq<byte>, at: nat, size: nat, key: Key, stream: Stream, n: nat,
      encrypt: bool)
    requires at + size <= |data| == |image| && n <= size
  {
    && data[at..at + size] == LaneView(Start(key), image[at..at + size], n, encrypt)
    && stream == Run(Start(key), image[at..at + size][..n], encrypt).0
  }

  lemma LaneStep(data: seq<byte>, image: seq<byte>, at: nat, size: nat, key: Key, stream: Stream, n: nat, encrypt: bool)
    requires at + size <= |data| == |image| && n < size
    requires LaneDone(data, image, at, size, key, stream, n, encrypt)
    ensures var (stream', y) := StreamStep(stream, data[at + n], encrypt);
      LaneDone(data[at + n := y], image, at, size, key, stream', n + 1, encrypt)
  {
    hide StreamStep, Start;
    var slice := image[at..at + size];
    LaneViewNext(Start(key), slice, n, encrypt);
    assert data[at + n] == data[at..at + size][n] == slice[n];
    var (stream', y) := StreamStep(stream, data[at + n], encrypt);
    UpdateInside(data, at, size, n, y);
  }

  lemma LaneKept(data: seq<byte>, image: seq<byte>, at: nat, size: nat, key: Key, stream: Stream, n: nat,
      encrypt: bool, i: nat, v: byte)
    requires at + size <= |data| == |image| && n <= size && i < |data| && (i < at || at + size <= i)
    requires LaneDone(data, image, at, size, key, stream, n, encrypt)
    ensures LaneDone(data[i := v], image, at, size, key, stream, n, encrypt)
  {
    UpdateOutside(data, at, size, i, v);
  }

  /** Every lane inside the buffer. */
  ghost predicate LanesFit(length: nat, base: nat, size: nat, stride: nat, count: nat) {
    size <= stride && forall l: nat :: l < count ==> At(base, stride, l) + size <= length
  }

  /** Every lane `l` has transformed `Progress(l)` bytes: one more than `offset` below `lane`, `offset` from
      there on. */
  ghost predicate LanesDone(data: seq<byte>, image: seq<byte>, base: nat, size: nat, stride: nat, keys: seq<Key>,
                            streams: seq<Stream>, offset: nat, lane: nat, encrypt: bool)
    requires |data| == |image| && |streams| == |keys| && LanesFit(|data|, base, size, stride, |keys|)
    requires offset < size || (offset == size && lane == 0)
  {
    forall l: nat :: l < |keys| ==>
      LaneDone(data, image, At(base, stride, l), size, keys[l], streams[l], if l < lane then offset + 1 else offset,
        encrypt)
  }

  lemma LanesStep(data: seq<byte>, image: seq<byte>, base: nat, size: nat, stride: nat, keys: seq<Key>,
                  streams: seq<Stream>, offset: nat, lane: nat, encrypt: bool)
    requires |data| == |image| && |streams| == |keys| && LanesFit(|data|, base, size, stride, |keys|)
    requires offset < size && lane < |keys|
    requires LanesDone(data, image, base, size, stride, keys, streams, offset, lane, encrypt)
    ensures var at := At(base, stride, lane) + offset;
      var (stream', y) := StreamStep(streams[lane], data[at], encrypt);
      LanesDone(data[at := y], image, base, size, stride, keys, streams[lane := stream'], offset, lane + 1, encrypt)
  {
    hide StreamStep, At, LaneDone;
    var at := At(base, stride, lane) + offset;
    var (stream', y) := StreamStep(streams[lane], data[at], encrypt);
    forall l: nat | l < |keys|
      ensures LaneDone(data[at := y], image, At(base, stride, l), size, keys[l], streams[lane := stream'][l],
                       if l < lane + 1 then offset + 1 else offset, encrypt)
    {
      if l == lane {
        LaneStep(data, image, At(base, stride, lane), size, keys[lane], streams[lane], offset, encrypt);
      } else {
        if l < lane {
          LanesApart(base, stride, l, lane);
        } else {
          LanesApart(base, stride, lane, l);
        }
        LaneKept(data, image, At(base, stride, l), size, keys[l], streams[l], if l < lane then offset + 1 else offset,
          encrypt, at, y);
      }
    }
  }

  /** Address `a` belongs to no lane. */
  ghost predicate OutsideLanes(base: nat, size: nat, stride: nat, count: nat, a: nat) {
    forall l: nat :: l < count ==> a < At(base, stride, l) || At(base, stride, l) + size <= a
  }

  /**
   * transformCipher: the key schedules of all lanes interleaved, then their output loops interleaved. Each lane ends up
   * as the one-lane stream of its own slice, and no other byte changes.
   */
  method TransformCipher(data: array<byte>, base: nat, size: nat, stride: nat, keys: seq<Key>, encrypt: bool)
    requires LanesFit(data.Length, base, size, stride, |keys|)
    modifies data
    ensures forall l: nat :: l < |keys| ==>
      data[At(base, stride, l)..At(base, stride, l) + size]
      == Run(Start(keys[l]), old(data[At(base, stride, l)..At(base, stride, l) + size]), encrypt).1
    ensures forall a: nat :: a < data.Length && OutsideLanes(base, size, stride, |keys|, a) ==> data[a] == old(data[a])
  {
    hide At, StreamStep, Start, Run, LanesDone, LanesFit;
    ghost var image := data[..];
    var streams := ScheduleKeys(keys);
    InitialLanes(image, base, size, stride, keys, streams, encrypt);
    for offset := 0 to size
      invariant |streams| == |keys| && LanesFit(data.Length, base, size, stride, |keys|)
      invariant LanesDone(data[..], image, base, size, stride, keys, streams, offset, 0, encrypt)
      invariant forall a: nat :: a < data.Length && OutsideLanes(base, size, stride, |keys|, a) ==> data[a] == image[a]
    {
      for lane := 0 to |keys|
        invariant |streams| == |keys|
        invariant LanesDone(data[..], image, base, size, stride, keys, streams, offset, lane, encrypt)
        invariant forall a: nat :: a < data.Length && OutsideLanes(base, size, stride, |keys|, a) ==>
          data[a] == image[a]
      {
        assert At(base, stride, lane) + size <= data.Length by {
          LaneFits(data.Length, base, size, stride, |keys|, lane);
        }
        ghost var before := data[..];
        LanesStep(before, image, base, size, stride, keys, streams, offset, lane, encrypt);
        var at := At(base, stride, lane) + offset;
        assert before[at] == data[at];
        var (stream, y) := StreamStep(streams[lane], data[at], encrypt);
        assert !OutsideLanes(base, size, stride, |keys|, at);
        data[at] := y;
        streams := streams[lane := stream];
        assert data[..] == before[at := y];
      }
      NextOffset(data[..], image, base, size, stride, keys, streams, offset, encrypt);
    }
    FinalLanes(data[..], image, base, size, stride, keys, streams, encrypt);
  }

  lemma LaneFits(length: nat, base: nat, size: nat, stride: nat, count: nat, lane: nat)
    requires LanesFit(length, base, size, stride, count) && lane < count
    ensures At(base, stride, lane) + size <= length
  {
  }

  /** The interleaved key schedules of all lanes. */
  method ScheduleKeys(keys: seq<Key>) returns (streams: seq<Stream>)
    ensures |streams| == |keys| && forall l: nat :: l < |keys| ==> streams[l] == Start(keys[l])
  {
    hide ScheduleStep, StartSchedule;
    var schedules := seq(|keys|, _ => StartSchedule());
    for index := 0 to 256
      invariant |schedules| == |keys|
      invariant forall l: nat :: l < |keys| ==> schedules[l] == RunSchedule(keys[l], index)
    {
      for lane := 0 to |keys|
        invariant |schedules| == |keys|
        invariant forall l: nat :: l < |keys| ==>
          schedules[l] == RunSchedule(keys[l], if l < lane then index + 1 else index)
      {
        schedules := schedules[lane := ScheduleStep(keys[lane], index, schedules[lane])];
      }
    }
    streams := seq(|keys|, l requires 0 <= l < |keys| => Stream(schedules[l].box, 0, 0, 0));
  }

  lemma InitialLanes(image: seq<byte>, base: nat, size: nat, stride: nat, keys: seq<Key>, streams: seq<Stream>,
      encrypt: bool)
    requires LanesFit(|image|, base, size, stride, |keys|) && |streams| == |keys|
    requires forall l: nat :: l < |keys| ==> streams[l] == Start(keys[l])
    ensures LanesDone(image, image, base, size, stride, keys, streams, 0, 0, encrypt)
  {
    hide Start, At;
    forall l: nat | l < |keys|
      ensures LaneDone(image, image, At(base, stride, l), size, keys[l], streams[l], 0, encrypt)
    {
      var slice := image[At(base, stride, l)..At(base, stride, l) + size];
      assert slice[..0] == [] && [] + slice[0..] == slice;
    }
  }

  lemma NextOffset(data: seq<byte>, image: seq<byte>, base: nat, size: nat, stride: nat, keys: seq<Key>,
                   streams: seq<Stream>, offset: nat, encrypt: bool)
    requires |data| == |image| && |streams| == |keys| && LanesFit(|data|, base, size, stride, |keys|) && offset < size
    requires LanesDone(data, image, base, size, stride, keys, streams, offset, |keys|, encrypt)
    ensures LanesDone(data, image, base, size, stride, keys, streams, offset + 1, 0, encrypt)
  {
    hide LaneDone, At;
  }

  lemma ViewIsRun<T>(out: seq<T>, slice: seq<T>, size: nat)
    requires |slice| == size
    ensures out + slice[size..] == out
  {
  }

  lemma FinalLanes(data: seq<byte>, image: seq<byte>, base: nat, size: nat, stride: nat, keys: seq<Key>,
                   streams: seq<Stream>, encrypt: bool)
    requires |data| == |image| && |streams| == |keys| && LanesFit(|data|, base, size, stride, |keys|)
    requires LanesDone(data, image, base, size, stride, keys, streams, size, 0, encrypt)
    ensures forall l: nat :: l < |keys| ==>
      data[At(base, stride, l)..At(base, stride, l) + size]
      == Run(Start(keys[l]), image[At(base, stride, l)..At(base, stride, l) + size], encrypt).1
  {
    hide Start, At, Run;
    forall l: nat | l < |keys|
      ensures data[At(base, stride, l)..At(base, stride, l) + size]
           == Run(Start(keys[l]), image[At(base, stride, l)..At(base, stride, l) + size], encrypt).1
    {
      var slice := image[At(base, stride, l)..At(base, stride, l) + size];
      assert LaneDone(data, image, At(base, stride, l), size, keys[l], streams[l], size, encrypt);
      assert slice[..size] == slice;
      ViewIsRun(Run(Start(keys[l]), slice, encrypt).1, slice, size);
    }
  }

  // ----- The three entry points -----

  method CipherEncrypt(data: array<byte>, base: nat, size: nat, key: KeyBlock)
    requires base + size <= data.Length
    modifies data
    ensures data[..] == Put(old(data[..]), base, Encrypt(old(data[base..base + size]), key))
  {
    hide Md4Of;
    var digest := Md4Block(key);
    OneLane(data.Length, base, size);
    ghost var image := data[..];
    TransformCipher(data, base, size, size, [digest], true);
    assert At(base, size, 0) == base;
    OneLaneResult(data[..], image, base, size, Encrypt(image[base..base + size], key));
  }

  method CipherDecrypt(data: array<byte>, base: nat, size: nat, key: KeyBlock)
    requires base + size <= data.Length
    modifies data
    ensures data[..] == Put(old(data[..]), base, Decrypt(old(data[base..base + size]), key))
  {
    hide Md4Of;
    var digest := Md4Block(key);
    OneLane(data.Length, base, size);
    ghost var image := data[..];
    TransformCipher(data, base, size, size, [digest], false);
    assert At(base, size, 0) == base;
    OneLaneResult(data[..], image, base, size, Decrypt(image[base..base + size], key));
  }

  lemma OneLane(length: nat, base: nat, size: nat)
    requires base + size <= length
    ensures LanesFit(length, base, size, size, 1)
  {
  }

  lemma OneLaneResult(data: seq<byte>, image: seq<byte>, base: nat, size: nat, value: seq<byte>)
    requires |data| == |image| && base + size <= |data| && data[base..base + size] == value
    requires forall a: nat :: a < |data| && OutsideLanes(base, size, size, 1, a) ==> data[a] == image[a]
    ensures data == Put(image, base, value)
  {
    forall a: nat | a < |data|
      ensures data[a] == Put(image, base, value)[a]
    {
      if base <= a < base + size {
        assert data[a] == data[base..base + size][a - base];
      } else {
        assert OutsideLanes(base, size, size, 1, a);
      }
    }
  }

  lemma EightLane(size: nat, lane: nat)
    requires lane < 8
    ensures At(0, size, lane) == size * lane && size * lane + size <= 8 * size
  {
    var k := 7 - lane;
    assert k * size >= 0;
    assert (lane + 1 + k) * size == lane * size + size + k * size;
  }

  lemma EightLanes(size: nat)
    ensures LanesFit(8 * size, 0, size, size, 8)
  {
    forall l: nat | l < 8
      ensures At(0, size, l) + size <= 8 * size
    {
      EightLane(size, l);
    }
  }

  /** The bytes of one of eight buffers of `size` bytes side by side. */
  function LaneSlice(data: seq<byte>, size: nat, lane: nat): (slice: seq<byte>)
    requires |data| == 8 * size && lane < 8
    ensures |slice| == size
  {
    EightLane(size, lane);
    data[At(0, size, lane)..At(0, size, lane) + size]
  }

  /** Eight buffers: each becomes its own scalar decryption under its own key. */
  method CipherDecryptBatch(data: array<byte>, size: nat, keys: seq<KeyBlock>)
    requires |keys| == 8 && data.Length == 8 * size
    modifies data
    ensures forall lane: nat :: lane < 8 ==>
      LaneSlice(data[..], size, lane) == Decrypt(LaneSlice(old(data[..]), size, lane), keys[lane])
  {
    hide Md4Of;
    var digests := DigestKeys(keys);
    ghost var image := data[..];
    EightLanes(size);
    hide At, LanesFit, Start, Run;
    TransformCipher(data, 0, size, size, digests, false);
    forall lane: nat | lane < 8
      ensures LaneSlice(data[..], size, lane) == Decrypt(LaneSlice(image, size, lane), keys[lane])
    {
      EightLane(size, lane);
      assert digests[lane] == Md4Of(keys[lane]);
      var at := At(0, size, lane);
      assert data[at..at + size] == data[..][at..at + size];
    }
  }

  method DigestKeys(keys: seq<KeyBlock>) returns (digests: seq<Key>)
    ensures |digests| == |keys| && forall l: nat :: l < |keys| ==> digests[l] == Md4Of(keys[l])
  {
    hide Md4Of;
    digests := [];
    for lane := 0 to |keys|
      invariant |digests| == lane && forall l: nat :: l < lane ==> digests[l] == Md4Of(keys[l])
    {
      var digest := Md4Block(keys[lane]);
      digests := digests + [digest];
    }
  }
}
