/**
  The 63-bit Snowflake layout: how a timestamp, a worker and a sequence value share one word, and
  how `parse` takes them apart again.
 */
module SnowflakeLayouts {
  import opened Prelude
  import opened Bits

  datatype SnowflakeLayout = SnowflakeLayout(
    timestampBits: nat,
    workerIdBits: nat,
    sequenceBits: nat,
    epochMillis: nat)
  {
    predicate Valid() {
      && timestampBits + workerIdBits + sequenceBits == 63
      && 30 <= timestampBits <= 50
      && workerIdBits <= 20
      && sequenceBits <= 20
    }

    function MaxWorkerId(): nat {
      Pow2(workerIdBits) - 1
    }

    function MaxSequence(): nat {
      Pow2(sequenceBits) - 1
    }

    function TimestampShift(): nat {
      workerIdBits + sequenceBits
    }

    /** The fields of an id of this layout: each one fits its bits. */
    predicate Fits(timestamp: nat, worker: nat, sequence: nat) {
      timestamp < Pow2(timestampBits) && worker <= MaxWorkerId() && sequence <= MaxSequence()
    }
  }

  datatype IdMetadata = IdMetadata(timestampMillis: nat, workerId: nat, sequence: nat)

  /** The id word of one sequence value, assembled with the generator's shifts and ors. */
  function IdAt(l: SnowflakeLayout, worker: nat, timestamp: nat, sequence: nat): nat {
    var base := Or(Shl(timestamp, l.TimestampShift()), Shl(worker, l.sequenceBits));
    Or(base, sequence)
  }

  function Parse(l: SnowflakeLayout, id: nat): IdMetadata {
    IdMetadata(
      Shr(id, l.TimestampShift()) + l.epochMillis,
      And(Shr(id, l.sequenceBits), l.MaxWorkerId()),
      And(id, l.MaxSequence()))
  }

  /** The two low fields together. */
  function Low(l: SnowflakeLayout, worker: nat, sequence: nat): nat {
    Scale(worker, l.sequenceBits) + sequence
  }

  lemma LowFits(l: SnowflakeLayout, worker: nat, sequence: nat)
    requires worker <= l.MaxWorkerId() && sequence <= l.MaxSequence()
    ensures Low(l, worker, sequence) < Pow2(l.TimestampShift())
  {
    FieldsBelow(worker, Pow2(l.workerIdBits), sequence, l.sequenceBits);
    Pow2Sum(l.workerIdBits, l.sequenceBits);
  }

  /** The timestamp and worker fields together. */
  function High(l: SnowflakeLayout, worker: nat, timestamp: nat): nat {
    Scale(timestamp, l.workerIdBits) + worker
  }

  /** Timestamp over shifted worker, and also both fields together over the sequence bits. */
  lemma {:induction false} BaseValue(l: SnowflakeLayout, worker: nat, timestamp: nat)
    requires l.Valid() && l.Fits(timestamp, worker, 0)
    ensures Or(Shl(timestamp, l.TimestampShift()), Shl(worker, l.sequenceBits))
         == Scale(timestamp, l.TimestampShift()) + Scale(worker, l.sequenceBits)
  {
    ShlExact(timestamp, l.timestampBits, l.TimestampShift());
    ShlExact(worker, l.workerIdBits, l.sequenceBits);
    LowFits(l, worker, 0);
    OrIsAdd(timestamp, Scale(worker, l.sequenceBits), l.TimestampShift());
  }

  lemma HighValue(l: SnowflakeLayout, worker: nat, timestamp: nat)
    ensures Scale(timestamp, l.TimestampShift()) + Scale(worker, l.sequenceBits)
         == Scale(High(l, worker, timestamp), l.sequenceBits)
  {
    ScaleTwice(timestamp, l.workerIdBits, l.sequenceBits);
    ScaleAdds(Scale(timestamp, l.workerIdBits), worker, l.sequenceBits);
  }

  /** The id is its timestamp over the two low fields, and also its two high fields over the sequence. */
  lemma {:induction false} IdValue(l: SnowflakeLayout, worker: nat, timestamp: nat, sequence: nat)
    requires l.Valid() && l.Fits(timestamp, worker, sequence)
    ensures IdAt(l, worker, timestamp, sequence) == Scale(timestamp, l.TimestampShift()) + Low(l, worker, sequence)
    ensures IdAt(l, worker, timestamp, sequence) == Scale(High(l, worker, timestamp), l.sequenceBits) + sequence
  {
    BaseValue(l, worker, timestamp);
    HighValue(l, worker, timestamp);
    OrIsAdd(High(l, worker, timestamp), sequence, l.sequenceBits);
  }

  lemma ParsedTimestamp(l: SnowflakeLayout, worker: nat, timestamp: nat, sequence: nat)
    requires l.Valid() && l.Fits(timestamp, worker, sequence)
    ensures Shr(IdAt(l, worker, timestamp, sequence), l.TimestampShift()) == timestamp
  {
    IdValue(l, worker, timestamp, sequence);
    LowFits(l, worker, sequence);
    SplitWord(timestamp, Low(l, worker, sequence), l.TimestampShift());
  }

  /** Packing then parsing gives the three fields back, the timestamp moved to the Unix epoch. */
  lemma {:induction false} ParseRecoversFields(l: SnowflakeLayout, worker: nat, timestamp: nat, sequence: nat)
    requires l.Valid() && l.Fits(timestamp, worker, sequence)
    ensures Parse(l, IdAt(l, worker, timestamp, sequence))
         == IdMetadata(timestamp + l.epochMillis, worker, sequence)
  {
    ParsedTimestamp(l, worker, timestamp, sequence);
    IdValue(l, worker, timestamp, sequence);
    SplitWord(High(l, worker, timestamp), sequence, l.sequenceBits);
    SplitWord(timestamp, worker, l.workerIdBits);
  }

  /**
    The other way round: every 63-bit number is the id of exactly the fields that parsing finds in
    it. With `ParseRecoversFields`, a valid layout is a bijection between field triples and 63-bit ids.
   */
  lemma {:induction false} PackRecoversId(l: SnowflakeLayout, id: nat)
    requires l.Valid() && id < Pow2(63)
    ensures Parse(l, id).timestampMillis >= l.epochMillis
    ensures var fields := Parse(l, id);
      var timestamp := fields.timestampMillis - l.epochMillis;
      && l.Fits(timestamp, fields.workerId, fields.sequence)
      && IdAt(l, fields.workerId, timestamp, fields.sequence) == id
  {
    assert l.timestampBits + l.TimestampShift() == 63;
    FieldsOfId(l, id);
  }

  lemma {:induction false} FieldsOfId(l: SnowflakeLayout, id: nat)
    requires l.Valid() && id < Pow2(l.timestampBits + l.TimestampShift())
    ensures var timestamp := Shr(id, l.TimestampShift());
      var worker, sequence := And(Shr(id, l.sequenceBits), l.MaxWorkerId()), And(id, l.MaxSequence());
      l.Fits(timestamp, worker, sequence) && IdAt(l, worker, timestamp, sequence) == id
  {
    var high, timestamp := Shr(id, l.sequenceBits), Shr(id, l.TimestampShift());
    JoinWord(id, l.sequenceBits);
    JoinWord(high, l.workerIdBits);
    ShrShr(id, l.sequenceBits, l.workerIdBits);
    ShrFits(id, l.timestampBits, l.TimestampShift());
    FieldsJoin(l, id, high, timestamp, And(high, l.MaxWorkerId()), And(id, l.MaxSequence()));
  }

  lemma FieldsJoin(l: SnowflakeLayout, id: nat, high: nat, timestamp: nat, worker: nat, sequence: nat)
    requires l.Valid() && timestamp < Pow2(l.timestampBits)
    requires worker < Pow2(l.workerIdBits) && high == Scale(timestamp, l.workerIdBits) + worker
    requires sequence < Pow2(l.sequenceBits) && id == Scale(high, l.sequenceBits) + sequence
    ensures l.Fits(timestamp, worker, sequence) && IdAt(l, worker, timestamp, sequence) == id
  {
    IdValue(l, worker, timestamp, sequence);
  }

  lemma IdFillsLayout(l: SnowflakeLayout, worker: nat, timestamp: nat, sequence: nat)
    requires l.Valid() && l.Fits(timestamp, worker, sequence)
    ensures IdAt(l, worker, timestamp, sequence) < Pow2(l.timestampBits + l.TimestampShift())
  {
    IdValue(l, worker, timestamp, sequence);
    LowFits(l, worker, sequence);
    FieldsBelow(timestamp, Pow2(l.timestampBits), Low(l, worker, sequence), l.TimestampShift());
    Pow2Sum(l.timestampBits, l.TimestampShift());
  }

  /** Every id is a 63-bit number. */
  lemma IdBelow63Bits(l: SnowflakeLayout, worker: nat, timestamp: nat, sequence: nat)
    requires l.Valid() && l.Fits(timestamp, worker, sequence)
    ensures IdAt(l, worker, timestamp, sequence) < Pow2(63)
  {
    IdFillsLayout(l, worker, timestamp, sequence);
    assert l.timestampBits + l.TimestampShift() == 63;
  }

  /** Ids of one worker order as (timestamp, sequence) pairs do. */
  lemma {:induction false} IdsOrderByTime(l: SnowflakeLayout, worker: nat, t1: nat, s1: nat, t2: nat, s2: nat)
    requires l.Valid() && l.Fits(t1, worker, s1) && l.Fits(t2, worker, s2)
    ensures IdAt(l, worker, t1, s1) < IdAt(l, worker, t2, s2) <==> t1 < t2 || (t1 == t2 && s1 < s2)
  {
    IdValue(l, worker, t1, s1);
    IdValue(l, worker, t2, s2);
    LowFits(l, worker, s1);
    LowFits(l, worker, s2);
    if t1 < t2 {
      FieldsBelow(t1, t2, Low(l, worker, s1), l.TimestampShift());
    } else if t2 < t1 {
      FieldsBelow(t2, t1, Low(l, worker, s2), l.TimestampShift());
    }
  }

  /**
    The trait documents a positive id. The code can issue 0, and exactly for worker 0, at the epoch
    millisecond itself, with sequence 0.
   */
  lemma {:induction false} IdIsZeroExactlyAtEpoch(l: SnowflakeLayout, worker: nat, timestamp: nat, sequence: nat)
    requires l.Valid() && l.Fits(timestamp, worker, sequence)
    ensures IdAt(l, worker, timestamp, sequence) == 0 <==> timestamp == 0 && worker == 0 && sequence == 0
  {
    IdValue(l, worker, timestamp, sequence);
  }

  /** Generators with different workers never build the same id. */
  lemma {:induction false} WorkersDoNotCollide(
    l: SnowflakeLayout, w1: nat, t1: nat, s1: nat, w2: nat, t2: nat, s2: nat)
    requires l.Valid() && l.Fits(t1, w1, s1) && l.Fits(t2, w2, s2) && w1 != w2
    ensures IdAt(l, w1, t1, s1) != IdAt(l, w2, t2, s2)
  {
    ParseRecoversFields(l, w1, t1, s1);
    ParseRecoversFields(l, w2, t2, s2);
  }
}
