/** The scheduled-retry continuation: postpone an envelope by a fixed delay, through the channel's
    native scheduling when it has it and through the durable store otherwise. */
module ErrorHandling {
  import opened Wrappers
  import opened Messaging
  import opened Persistence

  /** One call of `IHasNativeScheduling.MoveToScheduledUntil(envelope, time)`. */
  datatype ScheduledMove = ScheduledMove(envelope: Envelope, time: DateTime)

  /** The channel the envelope arrived on; `hasNativeScheduling` says whether it implements
      `IHasNativeScheduling`, and `scheduledMoves` records the calls made through that interface. */
  class ChannelCallback {
    const hasNativeScheduling: bool
    var scheduledMoves: seq<ScheduledMove>

    constructor (hasNativeScheduling: bool)
      ensures this.hasNativeScheduling == hasNativeScheduling && scheduledMoves == []
    {
      this.hasNativeScheduling := hasNativeScheduling;
      scheduledMoves := [];
    }

    method MoveToScheduledUntil(envelope: Envelope, time: DateTime)
      requires hasNativeScheduling
      modifies this`scheduledMoves
      ensures scheduledMoves == old(scheduledMoves) + [ScheduledMove(envelope, time)]
    {
      scheduledMoves := scheduledMoves + [ScheduledMove(envelope, time)];
    }
  }

  /** `DateTime.Add` throws ArgumentOutOfRangeException when the sum leaves the representable range. */
  datatype ExecuteError = ExecutionTimeOutOfRange

  /** `utcNow.Add(delay)`: the sum of the ticks, or the error when it is not a valid `DateTime`. */
  function AddDelay(utcNow: DateTime, delay: TimeSpan): (r: Result<DateTime, ExecuteError>)
    ensures r.Success? <==> 0 <= utcNow + delay as int <= MaxDateTimeTicks
    ensures r.Success? ==> r.value == utcNow + delay as int
    ensures r.Failure? ==> r.error == ExecutionTimeOutOfRange
  {
    var t := utcNow + delay as int;
    if 0 <= t <= MaxDateTimeTicks then Success(t) else Failure(ExecutionTimeOutOfRange)
  }

  /** A non-negative delay never schedules earlier than now, and a delay that fits before
      `DateTime.MaxValue` always succeeds. */
  lemma NonNegativeDelayIsNotEarlier(utcNow: DateTime, delay: TimeSpan)
    requires delay >= 0
    ensures AddDelay(utcNow, delay).Success? ==> AddDelay(utcNow, delay).value >= utcNow
    ensures utcNow + delay as int <= MaxDateTimeTicks ==> AddDelay(utcNow, delay).Success?
  {
  }

  /** Bitwise exclusive or of the low `width` bits of two naturals. */
  function Xor(a: nat, b: nat, width: nat): (r: nat)
    ensures r < Pow2(width)
  {
    if width == 0 then 0
    else (if a % 2 == b % 2 then 0 else 1) + 2 * Xor(a / 2, b / 2, width - 1)
  }

  function Pow2(n: nat): (p: nat)
    ensures p >= 1
  {
    if n == 0 then 1 else 2 * Pow2(n - 1)
  }

  /** Exclusive or with zero keeps a value that fits in the width. */
  lemma {:induction false} XorZero(a: nat, width: nat)
    requires a < Pow2(width)
    ensures Xor(a, 0, width) == a
  {
    if width > 0 {
      XorZero(a / 2, width - 1);
    }
  }

  /** Exclusive or with all ones complements a value that fits in the width. */
  lemma {:induction false} XorAllOnes(a: nat, width: nat)
    requires a < Pow2(width)
    ensures Xor(a, Pow2(width) - 1, width) == Pow2(width) - 1 - a
  {
    if width > 0 {
      assert (Pow2(width) - 1) / 2 == Pow2(width - 1) - 1;
      XorAllOnes(a / 2, width - 1);
    }
  }

  /** Complementing both operands leaves their exclusive or unchanged. */
  lemma {:induction false} XorComplements(a: nat, b: nat, width: nat)
    requires a < Pow2(width) && b < Pow2(width)
    ensures Xor(Pow2(width) - 1 - a, Pow2(width) - 1 - b, width) == Xor(a, b, width)
  {
    if width > 0 {
      var m := Pow2(width - 1) - 1;
      assert (Pow2(width) - 1 - a) / 2 == m - a / 2 && (Pow2(width) - 1 - a) % 2 == 1 - a % 2;
      assert (Pow2(width) - 1 - b) / 2 == m - b / 2 && (Pow2(width) - 1 - b) % 2 == 1 - b % 2;
      XorComplements(a / 2, b / 2, width - 1);
    }
  }

  /** The two 32-bit halves of a 64-bit two's complement tick count folded by exclusive or: the
      halves of a small non-negative count are the count and zero, those of a small negative count
      are its low word and all ones. */
  lemma FoldedHalves(delay: TimeSpan)
    ensures var unsigned := delay as int % 0x1_0000_0000_0000_0000;
            var folded := Xor(unsigned % 0x1_0000_0000, unsigned / 0x1_0000_0000, 32);
            && (0 <= delay < 0x8000_0000 ==> folded == delay as int)
            && (-0x8000_0000 <= delay < 0 ==> folded == -(delay as int) - 1)
  {
    Pow2At32();
    var unsigned := delay as int % 0x1_0000_0000_0000_0000;
    if 0 <= delay < 0x8000_0000 {
      assert unsigned == delay as int;
      assert unsigned % 0x1_0000_0000 == delay as int && unsigned / 0x1_0000_0000 == 0;
      XorZero(delay as int, 32);
    } else if -0x8000_0000 <= delay < 0 {
      assert unsigned == delay as int + 0x1_0000_0000_0000_0000;
      assert unsigned % 0x1_0000_0000 == delay as int + 0x1_0000_0000;
      assert unsigned / 0x1_0000_0000 == 0xFFFF_FFFF;
      XorAllOnes(delay as int + 0x1_0000_0000, 32);
    }
  }

  /** `TimeSpan.GetHashCode`, which is `long.GetHashCode` of the ticks: the low 32 bits of the two's
      complement ticks xor the high 32 bits, read as a signed 32-bit integer. */
  function TimeSpanHash(delay: TimeSpan): (h: int32)
    ensures 0 <= delay < 0x8000_0000 ==> h as int == delay as int
    ensures -0x8000_0000 <= delay < 0 ==> h as int == -(delay as int) - 1
  {
    Pow2At32();
    FoldedHalves(delay);
    var unsigned := delay as int % 0x1_0000_0000_0000_0000;
    var low, high := unsigned % 0x1_0000_0000, unsigned / 0x1_0000_0000;
    var folded := Xor(low, high, 32);
    if folded < 0x8000_0000 then folded as int32 else (folded - 0x1_0000_0000) as int32
  }

  lemma {:induction false} Pow2Add(a: nat, b: nat)
    ensures Pow2(a + b) == Pow2(a) * Pow2(b)
  {
    if a > 0 {
      Pow2Add(a - 1, b);
    }
  }

  lemma Pow2At32()
    ensures Pow2(32) == 0x1_0000_0000
  {
    assert Pow2(2) == 4;
    assert Pow2(4) == 16;
    Pow2Add(4, 4);
    Pow2Add(8, 8);
    Pow2Add(16, 16);
  }

  /** A tick count and its bitwise complement `-ticks - 1` hash alike: complementing both 32-bit
      halves leaves their exclusive or unchanged. */
  lemma ComplementHashesAlike(delay: TimeSpan)
    ensures TimeSpanHash((-(delay as int) - 1) as TimeSpan) == TimeSpanHash(delay)
  {
    Pow2At32();
    var unsigned := delay as int % 0x1_0000_0000_0000_0000;
    var low, high := unsigned % 0x1_0000_0000, unsigned / 0x1_0000_0000;
    var complement := (-(delay as int) - 1) % 0x1_0000_0000_0000_0000;
    assert complement == 0xFFFF_FFFF_FFFF_FFFF - unsigned;
    assert unsigned == high * 0x1_0000_0000 + low;
    assert complement == (0xFFFF_FFFF - high) * 0x1_0000_0000 + (0xFFFF_FFFF - low);
    assert complement % 0x1_0000_0000 == 0xFFFF_FFFF - low;
    assert complement / 0x1_0000_0000 == 0xFFFF_FFFF - high;
    XorComplements(low, high, 32);
  }

  class ScheduledRetryContinuation {
    /** `Delay`, fixed at construction. */
    const delay: TimeSpan

    constructor (delay: TimeSpan)
      ensures this.delay == delay
    {
      this.delay := delay;
    }

    /** `Execute`: set the envelope's execution time to `utcNow + delay`; then move the envelope to the
        channel's native schedule when the channel has one, and otherwise schedule it as a job in the
        durable store. When the sum is out of range nothing changes and the error escapes. The
        outgoing-message queue the source passes in is not used. */
    method Execute(persistence: DurableStore, channel: ChannelCallback, envelope: Envelope, utcNow: DateTime)
      returns (res: Outcome<ExecuteError>)
      modifies envelope`executionTime, channel`scheduledMoves, persistence
      ensures match AddDelay(utcNow, delay)
              case Failure(e) =>
                && res == Fail(e)
                && envelope.executionTime == old(envelope.executionTime)
                && channel.scheduledMoves == old(channel.scheduledMoves)
                && persistence.incoming == old(persistence.incoming)
              case Success(t) =>
                && res == Pass
                && envelope.executionTime == Some(t)
                && (channel.hasNativeScheduling ==>
                      && channel.scheduledMoves == old(channel.scheduledMoves) + [ScheduledMove(envelope, t)]
                      && persistence.incoming == old(persistence.incoming))
                && (!channel.hasNativeScheduling ==>
                      && channel.scheduledMoves == old(channel.scheduledMoves)
                      && persistence.incoming == old(persistence.incoming) + [ScheduledRecord(envelope.id, Some(t))])
    {
      var due := AddDelay(utcNow, delay);
      if due.Failure? {
        return Fail(due.error);
      }
      envelope.executionTime := Some(due.value);
      if channel.hasNativeScheduling {
        channel.MoveToScheduledUntil(envelope, envelope.executionTime.value);
      } else {
        persistence.ScheduleJob(envelope);
      }
      return Pass;
    }

    /** `Equals(object)`: never null, always itself, otherwise another continuation of this very
        type with an equal delay; so, because a continuation has its own delay, exactly the
        continuations with this delay. */
    predicate Equals(obj: object?)
      ensures Equals(obj) <==> obj != null && obj is ScheduledRetryContinuation
                               && (obj as ScheduledRetryContinuation).delay == delay
    {
      if obj == null then false
      else if obj == this then true
      else if !(obj is ScheduledRetryContinuation) then false
      else (obj as ScheduledRetryContinuation).delay == delay
    }

    /** `GetHashCode`: the delay's hash. */
    function GetHashCode(): (h: int32)
      ensures h == TimeSpanHash(delay)
    {
      TimeSpanHash(delay)
    }
  }

  /** Equality is symmetric and transitive between continuations. */
  lemma EqualsIsEquivalence(a: ScheduledRetryContinuation, b: ScheduledRetryContinuation, c: ScheduledRetryContinuation)
    ensures a.Equals(b) <==> b.Equals(a)
    ensures a.Equals(b) && b.Equals(c) ==> a.Equals(c)
  {
  }

  /** Equal continuations have equal hash codes. */
  lemma EqualMeansSameHash(a: ScheduledRetryContinuation, b: ScheduledRetryContinuation)
    requires a.Equals(b)
    ensures a.GetHashCode() == b.GetHashCode()
  {
  }

  /** When the channel cannot schedule natively, the retried envelope is afterwards found in the store
      as a scheduled job owned by any node, due at `utcNow + delay` (given the store held no row for
      it before). */
  method ExecuteSchedulesDurableJob(persistence: DurableStore, envelope: Envelope,
                                    delay: TimeSpan, utcNow: DateTime)
    returns (found: Option<EnvelopeRecord>)
    requires forall x :: x in persistence.incoming ==> x.id != envelope.id
    requires AddDelay(utcNow, delay).Success?
    modifies envelope`executionTime, persistence
    ensures found.Some? && found.value.status == Scheduled && found.value.ownerId == AnyNode
    ensures found.value.executionTime == Some(utcNow + delay as int)
  {
    var channel := new ChannelCallback(false);
    var continuation := new ScheduledRetryContinuation(delay);
    ghost var before := persistence.incoming;
    var res := continuation.Execute(persistence, channel, envelope, utcNow);
    ScheduledJobIsFound(before, envelope.id, Some(utcNow + delay as int));
    found := FindRecord(persistence.AllIncomingEnvelopes(), envelope.id);
  }
}
