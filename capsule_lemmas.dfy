/** Properties that relate several operations of the in-memory store.

    The first group relates two or three calls (a Store and a later Open,
    two Stores, a Store and a Delay, ...). The second group is about
    arbitrary sequences of completed mutations, the order in which
    concurrent callers' Store, Delay and Delete calls take effect.
 */
module CapsuleLemmas {
  import opened Capsules

  // ---------------------------------------------------------------------
  // Two or three calls

  /** Store then Open: locked before the unlock time, the stored value from then on. */
  lemma StoreThenOpen<T>(m: CapsuleMap<T>, key: string, value: T, unlockTime: Time, storedAt: Time, now: Time)
    requires key != ""
    ensures var m' := Store(m, Live, key, value, unlockTime, storedAt).capsules;
      Open(m', Live, key, now) == if now < unlockTime then Err(ErrCapsuleLocked) else Ok(value)
  {
  }

  /** A second Store replaces the whole record, creation time included. */
  lemma StoreOverwrites<T>(m: CapsuleMap<T>, key: string, v1: T, u1: Time, t1: Time, v2: T, u2: Time, t2: Time)
    requires key != ""
    ensures var m1 := Store(m, Live, key, v1, u1, t1).capsules;
      var m2 := Store(m1, Live, key, v2, u2, t2).capsules;
      m2 == Store(m, Live, key, v2, u2, t2).capsules && m2[key] == Capsule(v2, u2, t2)
  {
  }

  /** Delay sets the unlock time from the time of the Delay call, not from the
      previous unlock time; Peek afterwards reports it with a fresh lock flag. */
  lemma DelayResetsFromNow<T>(m: CapsuleMap<T>, key: string, delay: Duration, now: Time, later: Time)
    requires key != "" && key in m
    ensures var m' := Delay(m, Live, key, delay, now).capsules;
      Peek(m', Live, key, later) == Ok(Metadata(now + delay, m[key].createdAt, later < now + delay))
  {
  }

  /** After a successful Delete the key is absent; every other key keeps its presence. */
  lemma DeleteThenExists<T>(m: CapsuleMap<T>, key: string, other: string)
    requires Delete(m, Live, key).status == Pass
    ensures !Exists(Delete(m, Live, key).capsules, Live, key)
    ensures other != key ==> Exists(Delete(m, Live, key).capsules, Live, other) == Exists(m, Live, other)
  {
  }

  /** Exists reports exactly when Peek succeeds, whatever the lock state at any time. */
  lemma ExistsRegardlessOfLock<T>(m: CapsuleMap<T>, ctx: Context, key: string, now: Time)
    ensures Exists(m, ctx, key) == Peek(m, ctx, key, now).Ok?
  {
  }

  /** A capsule that is already unlocked is returned without waiting: WaitForUnlock
      equals Open, whatever the wake event and whatever happens afterwards. */
  lemma WaitOnUnlockedIsOpen<T>(m: CapsuleMap<T>, atWake: CapsuleMap<T>, ctx: Context, key: string, now: Time, event: WakeEvent)
    requires Peek(m, ctx, key, now).Ok? && !Peek(m, ctx, key, now).value.isLocked
    ensures WaitForUnlock(m, atWake, ctx, key, now, event) == Open(m, ctx, key, now)
  {
  }

  /** Peek errors (empty key, absent key, done context) are returned as they are. */
  lemma WaitPropagatesPeekError<T>(m: CapsuleMap<T>, atWake: CapsuleMap<T>, ctx: Context, key: string, now: Time, event: WakeEvent)
    requires Peek(m, ctx, key, now).Err?
    ensures WaitForUnlock(m, atWake, ctx, key, now, event) == Err(Peek(m, ctx, key, now).error)
  {
  }

  // ---------------------------------------------------------------------
  // Sequences of completed mutations

  /** A completed call of a mutating operation, with the inputs it was given. */
  datatype Mutation<T> =
    | StoreOp(ctx: Context, key: string, value: T, unlockTime: Time, now: Time)
    | DelayOp(ctx: Context, key: string, delay: Duration, now: Time)
    | DeleteOp(ctx: Context, key: string)

  function Apply<T>(m: CapsuleMap<T>, op: Mutation<T>): (r: CapsuleMap<T>) {
    match op
    case StoreOp(ctx, key, value, unlockTime, now) => Store(m, ctx, key, value, unlockTime, now).capsules
    case DelayOp(ctx, key, delay, now) => Delay(m, ctx, key, delay, now).capsules
    case DeleteOp(ctx, key) => Delete(m, ctx, key).capsules
  }

  /** The map after the mutations `ops` take effect one after the other. */
  function Run<T>(m: CapsuleMap<T>, ops: seq<Mutation<T>>): (r: CapsuleMap<T>)
    decreases |ops|
  {
    if |ops| == 0 then m else Run(Apply(m, ops[0]), ops[1..])
  }

  lemma {:induction false} RunAppend<T>(m: CapsuleMap<T>, a: seq<Mutation<T>>, b: seq<Mutation<T>>)
    ensures Run(m, a + b) == Run(Run(m, a), b)
    decreases |a|
  {
    if |a| > 0 {
      assert (a + b)[0] == a[0];
      assert (a + b)[1..] == a[1..] + b;
      RunAppend(Apply(m, a[0]), a[1..], b);
    } else {
      assert a + b == b;
    }
  }

  /** The empty string never becomes a key. */
  lemma {:induction false} RunKeepsKeysNonEmpty<T>(m: CapsuleMap<T>, ops: seq<Mutation<T>>)
    requires "" !in m
    ensures "" !in Run(m, ops)
    decreases |ops|
  {
    if |ops| > 0 {
      RunKeepsKeysNonEmpty(Apply(m, ops[0]), ops[1..]);
    }
  }

  /** Mutations of other keys leave a key's record exactly as it was:
      calls on distinct keys are independent. */
  lemma {:induction false} RunUntouched<T>(m: CapsuleMap<T>, ops: seq<Mutation<T>>, key: string)
    requires forall i :: 0 <= i < |ops| ==> ops[i].key != key
    ensures key in Run(m, ops) <==> key in m
    ensures key in m ==> Run(m, ops)[key] == m[key]
    decreases |ops|
  {
    if |ops| > 0 {
      assert forall i :: 0 <= i < |ops| - 1 ==> ops[1..][i] == ops[i + 1];
      RunUntouched(Apply(m, ops[0]), ops[1..], key);
    }
  }

  /** Only Store gives a record a new value or creation time, and only Store
      brings a key back: with no Store of `key`, a record present at the end
      was present at the start with the same value and creation time. With
      no Delay of `key` either, the record is unchanged. */
  lemma {:induction false} RecordStable<T>(m: CapsuleMap<T>, ops: seq<Mutation<T>>, key: string)
    requires forall i :: 0 <= i < |ops| ==> !(ops[i].StoreOp? && ops[i].key == key)
    requires key in Run(m, ops)
    ensures key in m
    ensures Run(m, ops)[key].value == m[key].value && Run(m, ops)[key].createdAt == m[key].createdAt
    ensures (forall i :: 0 <= i < |ops| ==> !(ops[i].DelayOp? && ops[i].key == key)) ==> Run(m, ops)[key] == m[key]
    decreases |ops|
  {
    if |ops| > 0 {
      var m1 := Apply(m, ops[0]);
      assert forall i :: 0 <= i < |ops| - 1 ==> ops[1..][i] == ops[i + 1];
      RecordStable(m1, ops[1..], key);
    }
  }

  /** The last successful Store of a key decides its record, whatever came before. */
  lemma LastStoreWins<T>(m: CapsuleMap<T>, ops: seq<Mutation<T>>, key: string, value: T, unlockTime: Time, now: Time)
    requires key != ""
    ensures key in Run(m, ops + [StoreOp(Live, key, value, unlockTime, now)])
    ensures Run(m, ops + [StoreOp(Live, key, value, unlockTime, now)])[key] == Capsule(value, unlockTime, now)
  {
    RunAppend(m, ops, [StoreOp(Live, key, value, unlockTime, now)]);
  }

  predicate DistinctKeys<T>(ops: seq<Mutation<T>>) {
    forall i, j :: 0 <= i < j < |ops| ==> ops[i].key != ops[j].key
  }

  /** Stores of distinct non-empty keys with a live context, in any order,
      all succeed and all remain visible. */
  lemma {:induction false} DistinctStoresAllVisible<T>(m: CapsuleMap<T>, ops: seq<Mutation<T>>)
    requires forall i :: 0 <= i < |ops| ==> ops[i].StoreOp? && ops[i].ctx.Live? && ops[i].key != ""
    requires DistinctKeys(ops)
    ensures forall i :: 0 <= i < |ops| ==>
      && Exists(Run(m, ops), Live, ops[i].key)
      && Run(m, ops)[ops[i].key] == Capsule(ops[i].value, ops[i].unlockTime, ops[i].now)
    decreases |ops|
  {
    if |ops| > 0 {
      var rest := ops[1..];
      var m1 := Apply(m, ops[0]);
      assert forall i :: 0 <= i < |rest| ==> rest[i] == ops[i + 1];
      DistinctStoresAllVisible(m1, rest);
      RunUntouched(m1, rest, ops[0].key);
    }
  }

  // ---------------------------------------------------------------------
  // WaitForUnlock against other callers' mutations during the wait

  /** No missed wake-up: when the timer fires at or after the snapshot's unlock
      time and nobody touched the key meanwhile, the value is returned. */
  lemma NoMissedWakeup<T>(m: CapsuleMap<T>, others: seq<Mutation<T>>, key: string, now: Time, wakeNow: Time)
    requires key in m && key != "" && now < m[key].unlockTime <= wakeNow
    requires forall i :: 0 <= i < |others| ==> others[i].key != key
    ensures WaitForUnlock(m, Run(m, others), Live, key, now, TimerFired(wakeNow, Live)) == Ok(m[key].value)
  {
    RunUntouched(m, others, key);
  }

  /** A Delete of the key completed during the wait, and not undone by a later
      Store, surfaces as ErrCapsuleNotFound from the final Open. */
  lemma WaitSeesDelete<T>(m: CapsuleMap<T>, before: seq<Mutation<T>>, after: seq<Mutation<T>>, key: string, now: Time, wakeNow: Time)
    requires key in m && key != "" && now < m[key].unlockTime
    requires forall i :: 0 <= i < |after| ==> after[i].key != key
    ensures var atWake := Run(m, before + [DeleteOp(Live, key)] + after);
      WaitForUnlock(m, atWake, Live, key, now, TimerFired(wakeNow, Live)) == Err(ErrCapsuleNotFound)
  {
    var d: Mutation<T> := DeleteOp(Live, key);
    var deleted := Apply(Run(m, before), d);
    assert key !in deleted;
    RunThrough(m, before, d, after);
    RunUntouched(deleted, after, key);
  }

  /** A Delay of the key completed during the wait that moves the unlock time
      past the wake-up time surfaces as ErrCapsuleLocked: one wait attempt only. */
  lemma WaitSeesDelay<T>(m: CapsuleMap<T>, before: seq<Mutation<T>>, after: seq<Mutation<T>>,
                         key: string, delay: Duration, delayedAt: Time, now: Time, wakeNow: Time)
    requires key in m && key != "" && now < m[key].unlockTime
    requires key in Run(m, before) && wakeNow < delayedAt + delay
    requires forall i :: 0 <= i < |after| ==> after[i].key != key
    ensures var atWake := Run(m, before + [DelayOp(Live, key, delay, delayedAt)] + after);
      WaitForUnlock(m, atWake, Live, key, now, TimerFired(wakeNow, Live)) == Err(ErrCapsuleLocked)
  {
    var d: Mutation<T> := DelayOp(Live, key, delay, delayedAt);
    var delayed := Apply(Run(m, before), d);
    assert key in delayed && delayed[key].unlockTime == delayedAt + delay;
    RunThrough(m, before, d, after);
    RunUntouched(delayed, after, key);
  }

  /** Running `before`, then `op`, then `after`. */
  lemma RunThrough<T>(m: CapsuleMap<T>, before: seq<Mutation<T>>, op: Mutation<T>, after: seq<Mutation<T>>)
    ensures Run(m, before + [op] + after) == Run(Apply(Run(m, before), op), after)
  {
    RunAppend(m, before + [op], after);
    RunAppend(m, before, [op]);
    assert Run(Run(m, before), [op]) == Apply(Run(m, before), op);
  }
}
