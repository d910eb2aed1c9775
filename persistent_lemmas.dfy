/** Properties of the backend-delegating store.

    Under the codec's round-trip property the store behaves as the in-memory
    store of typed values does, with one exception: Delay. The relation
    Represents says that a backend state holds, key by key, the encodings of
    a typed map with the same times.
 */
module PersistentLemmas {
  import opened Capsules
  import Persistent

  /** Store then Open: locked before the unlock time, the stored value from
      then on, whenever the codec round-trips and Encode accepted the value. */
  lemma StoreThenOpen<T(!new)>(codec: Persistent.Codec<T>, b: CapsuleMap<Persistent.Bytes>, key: string,
                               value: T, unlockTime: Time, storedAt: Time, now: Time)
    requires Persistent.RoundTrips(codec)
    requires key != "" && codec.encode(value).Ok?
    ensures var b' := Persistent.Store(codec, b, Live, key, value, unlockTime, storedAt).capsules;
      Persistent.Open(codec, b', Live, key, now) == if now < unlockTime then Err(ErrCapsuleLocked) else Ok(value)
  {
  }

  ghost predicate Represents<T>(codec: Persistent.Codec<T>, m: CapsuleMap<T>, b: CapsuleMap<Persistent.Bytes>) {
    && b.Keys <= m.Keys
    && forall k :: k in m ==>
         && k in b
         && codec.encode(m[k].value) == Ok(b[k].value)
         && b[k].unlockTime == m[k].unlockTime
         && b[k].createdAt == m[k].createdAt
  }

  lemma OpenAgrees<T(!new)>(codec: Persistent.Codec<T>, m: CapsuleMap<T>, b: CapsuleMap<Persistent.Bytes>,
                            ctx: Context, key: string, now: Time)
    requires Persistent.RoundTrips(codec) && Represents(codec, m, b)
    ensures Persistent.Open(codec, b, ctx, key, now) == Capsules.Open(m, ctx, key, now)
  {
  }

  lemma PeekAndExistsAgree<T>(codec: Persistent.Codec<T>, m: CapsuleMap<T>, b: CapsuleMap<Persistent.Bytes>,
                              ctx: Context, key: string, now: Time)
    requires Represents(codec, m, b)
    ensures Persistent.Peek(b, ctx, key, now) == Capsules.Peek(m, ctx, key, now)
    ensures Persistent.Exists(b, ctx, key) == Capsules.Exists(m, ctx, key)
  {
  }

  /** Store keeps the two stores in step when Encode accepts the value; when
      it refuses, the persistent Store fails with Encode's error and changes nothing. */
  lemma StoreAgrees<T>(codec: Persistent.Codec<T>, m: CapsuleMap<T>, b: CapsuleMap<Persistent.Bytes>,
                       ctx: Context, key: string, value: T, unlockTime: Time, now: Time)
    requires Represents(codec, m, b)
    ensures var r := Persistent.Store(codec, b, ctx, key, value, unlockTime, now);
      var s := Capsules.Store(m, ctx, key, value, unlockTime, now);
      if ctx.Live? && key != "" && codec.encode(value).Err?
      then r == Step(b, Fail(codec.encode(value).error))
      else r.status == s.status && Represents(codec, s.capsules, r.capsules)
  {
  }

  lemma DeleteAgrees<T>(codec: Persistent.Codec<T>, m: CapsuleMap<T>, b: CapsuleMap<Persistent.Bytes>,
                        ctx: Context, key: string)
    requires Represents(codec, m, b)
    ensures var r := Persistent.Delete(b, ctx, key);
      var s := Capsules.Delete(m, ctx, key);
      r.status == s.status && Represents(codec, s.capsules, r.capsules)
  {
  }

  /** Delay is where the two stores part: the persistent Delay fails with
      ErrCapsuleLocked on a capsule the in-memory Delay would move, and on
      success it also resets the creation time to the time of the call. */
  lemma DelayDiverges<T>(codec: Persistent.Codec<T>, m: CapsuleMap<T>, b: CapsuleMap<Persistent.Bytes>,
                         ctx: Context, key: string, delay: Duration, now: Time)
    requires Represents(codec, m, b)
    ensures var r := Persistent.Delay(b, ctx, key, delay, now);
      var s := Capsules.Delay(m, ctx, key, delay, now);
      if s.status == Pass && now < m[key].unlockTime
      then r == Step(b, Fail(ErrCapsuleLocked))
      else
        && r.status == s.status
        && (s.status == Pass ==> Represents(codec, s.capsules[key := s.capsules[key].(createdAt := now)], r.capsules))
        && (s.status.Fail? ==> r.capsules == b)
  {
    var r := Persistent.Delay(b, ctx, key, delay, now);
    var s := Capsules.Delay(m, ctx, key, delay, now);
    if s.status == Pass && m[key].unlockTime <= now {
      var s' := s.capsules[key := s.capsules[key].(createdAt := now)];
      assert forall k :: k in s' ==> k in m;
    }
  }

  lemma WaitAgrees<T(!new)>(codec: Persistent.Codec<T>, m: CapsuleMap<T>, mAtWake: CapsuleMap<T>,
                            b: CapsuleMap<Persistent.Bytes>, bAtWake: CapsuleMap<Persistent.Bytes>,
                            ctx: Context, key: string, now: Time, event: WakeEvent)
    requires Persistent.RoundTrips(codec) && Represents(codec, m, b) && Represents(codec, mAtWake, bAtWake)
    ensures Persistent.WaitForUnlock(codec, b, bAtWake, ctx, key, now, event)
            == Capsules.WaitForUnlock(m, mAtWake, ctx, key, now, event)
  {
    if event.TimerFired? {
      OpenAgrees(codec, mAtWake, bAtWake, event.wakeCtx, key, event.wakeNow);
    }
  }

  /** A Delete that completes between Delay's Open and its re-Store does not
      make Delay fail: the re-Store puts the capsule back, with the new unlock
      time and a new creation time. */
  lemma DelayRacingDeleteRecreates(b: CapsuleMap<Persistent.Bytes>, key: string, delay: Duration, now: Time)
    requires key != "" && key in b && b[key].unlockTime <= now
    ensures var afterDelete := Capsules.Delete(b, Live, key).capsules;
      var r := Persistent.DelayAcross(b, b, afterDelete, Live, key, delay, now);
      r.status == Pass && key in r.capsules && r.capsules[key] == Capsule(b[key].value, now + delay, now)
  {
  }
}
