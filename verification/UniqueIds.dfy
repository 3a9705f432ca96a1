/** `CUniqueIdGenerator`: 44 clock bits, 12 sequence bits and 8 thread bits packed into one word. */
module UniqueIds {

  const TIME_MASK: bv64 := (1 << 44) - 1
  const SEQ_MASK: bv64 := (1 << 12) - 1
  const THREAD_MASK: bv64 := (1 << 8) - 1

  function Pack(time: bv64, sequence: bv64, thread: bv64): bv64 {
    ((time & TIME_MASK) << 20) | ((sequence & SEQ_MASK) << 8) | (thread & THREAD_MASK)
  }

  /** The three fields lie side by side: each can be read back, and together they are the whole word. */
  lemma FieldsFillTheWord(time: bv64, sequence: bv64, thread: bv64, id: bv64)
    ensures Pack(time, sequence, thread) >> 20 == time & TIME_MASK
    ensures (Pack(time, sequence, thread) >> 8) & SEQ_MASK == sequence & SEQ_MASK
    ensures Pack(time, sequence, thread) & THREAD_MASK == thread & THREAD_MASK
    ensures Pack(id >> 20, id >> 8, id) == id
  {
  }

  predicate SameFields(t: bv64, s: bv64, h: bv64, t': bv64, s': bv64, h': bv64) {
    t & TIME_MASK == t' & TIME_MASK && s & SEQ_MASK == s' & SEQ_MASK && h & THREAD_MASK == h' & THREAD_MASK
  }

  lemma SameWordSameFields(t: bv64, s: bv64, h: bv64, t': bv64, s': bv64, h': bv64)
    requires Pack(t, s, h) == Pack(t', s', h')
    ensures SameFields(t, s, h, t', s', h')
  {
    FieldsFillTheWord(t, s, h, 0);
    FieldsFillTheWord(t', s', h', 0);
  }

  lemma SameFieldsSameWord(t: bv64, s: bv64, h: bv64, t': bv64, s': bv64, h': bv64)
    requires SameFields(t, s, h, t', s', h')
    ensures Pack(t, s, h) == Pack(t', s', h')
  {
  }

  /** The counter after `n` more ids, in the source's 64-bit arithmetic. */
  function Advanced(sequence: bv64, n: nat): bv64 {
    if n == 0 then sequence else Advanced(sequence, n - 1) + 1
  }

  /** The ids one thread makes, given the clock's readings. */
  function Ids(sequence: bv64, thread: bv64, ticks: seq<bv64>): (ids: seq<bv64>)
    ensures |ids| == |ticks|
    ensures forall i :: 0 <= i < |ids| ==> ids[i] == Pack(ticks[i], Advanced(sequence, i), thread)
  {
    if ticks == [] then []
    else
      var n := |ticks| - 1;
      Ids(sequence, thread, ticks[..n]) + [Pack(ticks[n], Advanced(sequence, n), thread)]
  }

  /** The low twelve bits of the counter. */
  function Low(sequence: bv64): bv12 {
    (sequence & SEQ_MASK) as bv12
  }

  lemma LowStep(sequence: bv64)
    ensures Low(sequence + 1) == Low(sequence) + 1
  {
  }

  lemma LowIsField(s: bv64, s': bv64)
    ensures Low(s) == Low(s') <==> s & SEQ_MASK == s' & SEQ_MASK
  {
  }

  function Counted(low: bv12, n: nat): bv12 {
    if n == 0 then low else Counted(low, n - 1) + 1
  }

  lemma {:induction false} LowOfAdvanced(sequence: bv64, n: nat)
    ensures Low(Advanced(sequence, n)) == Counted(Low(sequence), n)
  {
    if n > 0 {
      LowOfAdvanced(sequence, n - 1);
      LowStep(Advanced(sequence, n - 1));
    }
  }

  function Number(low: bv12): int {
    low as int
  }

  function NextNumber(k: int): int {
    if k == 4095 then 0 else k + 1
  }

  lemma NumberIsInjective(low: bv12, low': bv12)
    ensures 0 <= Number(low) < 4096
    ensures Number(low) == Number(low') ==> low == low'
  {
    assert (low as int) as bv12 == low && (low' as int) as bv12 == low';
  }

  lemma NumberStep(low: bv12)
    ensures Number(low + 1) == NextNumber(Number(low))
  {
    if low == 4095 {
      assert low + 1 == 0;
    } else {
      assert low as int != 4095 by { NumberIsInjective(low, 4095); }
    }
  }

  function CountedNumber(k: int, n: nat): int {
    if n == 0 then k else NextNumber(CountedNumber(k, n - 1))
  }

  lemma {:induction false} CountedNumberIsRemainder(k: int, n: nat)
    requires 0 <= k < 4096
    ensures CountedNumber(k, n) == (k + n) % 4096
  {
    if n > 0 {
      CountedNumberIsRemainder(k, n - 1);
    }
  }

  lemma {:induction false} NumberOfCounted(low: bv12, n: nat)
    ensures Number(Counted(low, n)) == CountedNumber(Number(low), n)
  {
    if n > 0 {
      NumberOfCounted(low, n - 1);
      NumberStep(Counted(low, n - 1));
    }
  }

  predicate SameRemainder(i: nat, j: nat) {
    i % 4096 == j % 4096
  }

  lemma RemaindersAgree(k: int, i: nat, j: nat)
    ensures (k + i) % 4096 == (k + j) % 4096 <==> SameRemainder(i, j)
  {
  }

  lemma CountedNumbersAgree(k: int, i: nat, j: nat)
    requires 0 <= k < 4096
    ensures CountedNumber(k, i) == CountedNumber(k, j) <==> SameRemainder(i, j)
  {
    CountedNumberIsRemainder(k, i);
    CountedNumberIsRemainder(k, j);
    RemaindersAgree(k, i, j);
  }

  lemma CountedAgree(low: bv12, i: nat, j: nat)
    ensures Counted(low, i) == Counted(low, j) <==> SameRemainder(i, j)
  {
    NumberOfCounted(low, i);
    NumberOfCounted(low, j);
    NumberIsInjective(low, low);
    NumberIsInjective(Counted(low, i), Counted(low, j));
    CountedNumbersAgree(Number(low), i, j);
  }

  predicate SameSequence(s: bv64, s': bv64) {
    s & SEQ_MASK == s' & SEQ_MASK
  }

  lemma SequenceFromLow(s: bv64, s': bv64, low: bv12, low': bv12, agree: bool)
    requires Low(s) == low && Low(s') == low' && (low == low' <==> agree)
    ensures SameSequence(s, s') <==> agree
  {
    LowIsField(s, s');
  }

  /** The sequence fields of the i-th and the j-th id agree exactly when i and j leave the same remainder. */
  lemma SequenceFieldsAgree(sequence: bv64, i: nat, j: nat)
    ensures SameSequence(Advanced(sequence, i), Advanced(sequence, j)) <==> SameRemainder(i, j)
  {
    LowOfAdvanced(sequence, i);
    LowOfAdvanced(sequence, j);
    CountedAgree(Low(sequence), i, j);
    SequenceFromLow(Advanced(sequence, i), Advanced(sequence, j),
                    Counted(Low(sequence), i), Counted(Low(sequence), j), SameRemainder(i, j));
  }

  predicate SameTick(t: bv64, t': bv64) {
    t & TIME_MASK == t' & TIME_MASK
  }

  lemma SameThreadCollision(t: bv64, s: bv64, t': bv64, s': bv64, h: bv64)
    ensures Pack(t, s, h) == Pack(t', s', h) <==> SameTick(t, t') && SameSequence(s, s')
  {
    if Pack(t, s, h) == Pack(t', s', h) {
      SameWordSameFields(t, s, h, t', s', h);
    }
    if SameTick(t, t') && SameSequence(s, s') {
      SameFieldsSameWord(t, s, h, t', s', h);
    }
  }

  /**
   Two ids of one thread collide exactly when the ticks agree in 44 bits and their places differ by a multiple of 4096.
   */
  lemma CollisionsOfOneThread(sequence: bv64, thread: bv64, ticks: seq<bv64>, i: nat, j: nat)
    requires i < |ticks| && j < |ticks|
    ensures Ids(sequence, thread, ticks)[i] == Ids(sequence, thread, ticks)[j] <==>
            SameTick(ticks[i], ticks[j]) && SameRemainder(i, j)
  {
    SequenceFieldsAgree(sequence, i, j);
    SameThreadCollision(ticks[i], Advanced(sequence, i), ticks[j], Advanced(sequence, j), thread);
  }

  /** So 4096 consecutive ids of a thread differ from one another whatever the clock does. */
  lemma ConsecutiveIdsDiffer(sequence: bv64, thread: bv64, ticks: seq<bv64>, i: nat, j: nat)
    requires i < j < |ticks| && j - i < 4096
    ensures Ids(sequence, thread, ticks)[i] != Ids(sequence, thread, ticks)[j]
  {
    CollisionsOfOneThread(sequence, thread, ticks, i, j);
  }

  /** And threads whose hashes differ in their low eight bits never share an id. */
  lemma ThreadsDoNotCollide(s: bv64, h: bv64, ticks: seq<bv64>, s': bv64, h': bv64, ticks': seq<bv64>, i: nat, j: nat)
    requires h & THREAD_MASK != h' & THREAD_MASK && i < |ticks| && j < |ticks'|
    ensures Ids(s, h, ticks)[i] != Ids(s', h', ticks')[j]
  {
    if Pack(ticks[i], Advanced(s, i), h) == Pack(ticks'[j], Advanced(s', j), h') {
      SameWordSameFields(ticks[i], Advanced(s, i), h, ticks'[j], Advanced(s', j), h');
    }
  }

  /** The thread-local state of one thread, whose hash the runtime supplies. */
  class UniqueIdGenerator {
    const hash: bv64
    var sequenceNumber: bv64
    var threadHash: bv64
    ghost var ticks: seq<bv64>

    ghost predicate Valid()
      reads this
    {
      (threadHash == 0 || threadHash == hash) && sequenceNumber == Advanced(0, |ticks|)
    }

    constructor (hash: bv64)
      ensures Valid() && ticks == [] && this.hash == hash
    {
      this.hash, sequenceNumber, threadHash, ticks := hash, 0, 0, [];
    }

    /** Called when the clock reads `now`: the next id of the thread's stream. */
    method Id(now: bv64) returns (id: bv64)
      requires Valid()
      modifies this
      ensures Valid() && ticks == old(ticks) + [now]
      ensures id == Pack(now, Advanced(0, |old(ticks)|), hash)
    {
      if threadHash == 0 {
        threadHash := hash;
      }
      var sequence := sequenceNumber;
      sequenceNumber := sequenceNumber + 1;
      id := Assemble(now, sequence, threadHash);
      ticks := ticks + [now];
    }

    static method Assemble(now: bv64, sequence: bv64, thread: bv64) returns (id: bv64)
      ensures id == Pack(now, sequence, thread)
    {
      id := 0;
      id := id | ((now & TIME_MASK) << 20);
      id := id | ((sequence & SEQ_MASK) << 8);
      id := id | (thread & THREAD_MASK);
    }
  }
}
