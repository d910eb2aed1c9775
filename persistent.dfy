/** Semantics of the backend-delegating store.

    The store keeps no state of its own: it composes a storage backend,
    which holds capsules of bytes, with a codec between values and bytes.
    The backend modelled is the in-memory reference store over bytes, so a
    backend state is a CapsuleMap<Bytes> and each backend call is the
    function of module Capsules of the same name. The Storage interface
    documents its Open as returning a value only once it is unlocked
    (storage.go:13), and this backend's Open does exactly that.
 */
module Persistent {
  import opened Capsules

  newtype byte = x: int | 0 <= x < 256
  type Bytes = seq<byte>

  /** A codec: Encode may fail, Decode may fail; both are total functions. */
  datatype Codec<!T> = Codec(encode: T -> Result<Bytes>, decode: Bytes -> Result<T>)

  /** The round-trip property assumed of a codec: what Encode accepts,
      Decode gives back. */
  ghost predicate RoundTrips<T(!new)>(codec: Codec<T>) {
    forall v :: codec.encode(v).Ok? ==> codec.decode(codec.encode(v).value) == Ok(v)
  }

  /** Store: encode, then hand the bytes to the backend. */
  function Store<T>(codec: Codec<T>, b: CapsuleMap<Bytes>, ctx: Context, key: string, value: T, unlockTime: Time, now: Time): (r: Step<Bytes>)
    ensures ctx.Done? ==> r == Step(b, Fail(ContextErr(ctx.reason)))
    ensures ctx.Live? && key == "" ==> r == Step(b, Fail(ErrInvalidKey))
    ensures ctx.Live? && key != "" && codec.encode(value).Err? ==> r == Step(b, Fail(codec.encode(value).error))
    ensures ctx.Live? && key != "" && codec.encode(value).Ok? ==>
      && r == Capsules.Store(b, ctx, key, codec.encode(value).value, unlockTime, now)
      && r.status == Pass
      && r.capsules[key] == Capsule(codec.encode(value).value, unlockTime, now)
  {
    match Guard(ctx, key)
    case Fail(e) => Step(b, Fail(e))
    case Pass =>
      match codec.encode(value)
      case Err(e) => Step(b, Fail(e))
      case Ok(data) => Capsules.Store(b, ctx, key, data, unlockTime, now)
  }

  /** Open: the backend's bytes, decoded; a backend error is passed on. */
  function Open<T>(codec: Codec<T>, b: CapsuleMap<Bytes>, ctx: Context, key: string, now: Time): (r: Result<T>)
    ensures ctx.Done? ==> r == Err(ContextErr(ctx.reason))
    ensures ctx.Live? && key == "" ==> r == Err(ErrInvalidKey)
    ensures Capsules.Open(b, ctx, key, now).Err? ==> r == Err(Capsules.Open(b, ctx, key, now).error)
    ensures Capsules.Open(b, ctx, key, now).Ok? ==> r == codec.decode(Capsules.Open(b, ctx, key, now).value)
    ensures r.Ok? ==> key in b && b[key].unlockTime <= now && codec.decode(b[key].value) == r
  {
    match Guard(ctx, key)
    case Fail(e) => Err(e)
    case Pass =>
      match Capsules.Open(b, ctx, key, now)
      case Err(e) => Err(e)
      case Ok(data) => codec.decode(data)
  }

  /** Peek: exactly the backend's answer, after the entry checks. */
  function Peek(b: CapsuleMap<Bytes>, ctx: Context, key: string, now: Time): (r: Result<Metadata>)
    ensures ctx.Done? ==> r == Err(ContextErr(ctx.reason))
    ensures ctx.Live? && key == "" ==> r == Err(ErrInvalidKey)
    ensures r == Capsules.Peek(b, ctx, key, now)
  {
    match Guard(ctx, key)
    case Fail(e) => Err(e)
    case Pass => Capsules.Peek(b, ctx, key, now)
  }

  /** Delay as three backend calls, each against the backend state it
      meets: Peek against `atPeek`, Open against `atOpen`, Store against
      `atStore` (other callers may act between the calls). The state in the
      result is the backend's state after this call's last step. */
  function DelayAcross(atPeek: CapsuleMap<Bytes>, atOpen: CapsuleMap<Bytes>, atStore: CapsuleMap<Bytes>,
                       ctx: Context, key: string, delay: Duration, now: Time): (r: Step<Bytes>)
    ensures ctx.Done? ==> r == Step(atPeek, Fail(ContextErr(ctx.reason)))
    ensures ctx.Live? && key == "" ==> r == Step(atPeek, Fail(ErrInvalidKey))
    ensures ctx.Live? && key != "" && key !in atPeek ==> r == Step(atPeek, Fail(ErrCapsuleNotFound))
    ensures ctx.Live? && key != "" && key in atPeek && key !in atOpen ==> r == Step(atOpen, Fail(ErrCapsuleNotFound))
    ensures ctx.Live? && key != "" && key in atPeek && key in atOpen && now < atOpen[key].unlockTime ==>
      r == Step(atOpen, Fail(ErrCapsuleLocked))
    ensures ctx.Live? && key != "" && key in atPeek && key in atOpen && atOpen[key].unlockTime <= now ==>
      && r.status == Pass
      && r.capsules.Keys == atStore.Keys + {key}
      && r.capsules[key] == Capsule(atOpen[key].value, now + delay, now)
      && forall k :: k in atStore && k != key ==> r.capsules[k] == atStore[k]
  {
    match Guard(ctx, key)
    case Fail(e) => Step(atPeek, Fail(e))
    case Pass =>
      match Capsules.Peek(atPeek, ctx, key, now)
      case Err(e) => Step(atPeek, Fail(e))
      case Ok(_) =>
        var newUnlockTime := now + delay;
        match Capsules.Open(atOpen, ctx, key, now)
        case Err(e) => Step(atOpen, Fail(e))
        case Ok(data) => Capsules.Store(atStore, ctx, key, data, newUnlockTime, now)
  }

  /** Delay when no other caller acts between its steps. Unlike the in-memory
      Delay it fails on a locked capsule (the backend's Open refuses it) and,
      because it re-stores, it resets the creation time to `now`. */
  function Delay(b: CapsuleMap<Bytes>, ctx: Context, key: string, delay: Duration, now: Time): (r: Step<Bytes>)
    ensures r.status == Pass <==> ctx.Live? && key != "" && key in b && b[key].unlockTime <= now
    ensures r.status.Fail? ==> r.capsules == b
    ensures ctx.Done? ==> r.status == Fail(ContextErr(ctx.reason))
    ensures ctx.Live? && key == "" ==> r.status == Fail(ErrInvalidKey)
    ensures ctx.Live? && key != "" && key !in b ==> r.status == Fail(ErrCapsuleNotFound)
    ensures ctx.Live? && key != "" && key in b && now < b[key].unlockTime ==> r.status == Fail(ErrCapsuleLocked)
    ensures r.status == Pass ==>
      && r.capsules.Keys == b.Keys
      && r.capsules[key] == Capsule(b[key].value, now + delay, now)
      && forall k :: k in b && k != key ==> r.capsules[k] == b[k]
  {
    DelayAcross(b, b, b, ctx, key, delay, now)
  }

  /** Delete: exactly the backend's Delete, after the entry checks. */
  function Delete(b: CapsuleMap<Bytes>, ctx: Context, key: string): (r: Step<Bytes>)
    ensures ctx.Done? ==> r == Step(b, Fail(ContextErr(ctx.reason)))
    ensures ctx.Live? && key == "" ==> r == Step(b, Fail(ErrInvalidKey))
    ensures r == Capsules.Delete(b, ctx, key)
  {
    match Guard(ctx, key)
    case Fail(e) => Step(b, Fail(e))
    case Pass => Capsules.Delete(b, ctx, key)
  }

  /** Exists: exactly the backend's Exists, false on a done context or the empty key. */
  function Exists(b: CapsuleMap<Bytes>, ctx: Context, key: string): (r: bool)
    ensures ctx.Done? || key == "" ==> !r
    ensures r == Capsules.Exists(b, ctx, key)
  {
    match Guard(ctx, key)
    case Fail(_) => false
    case Pass => Capsules.Exists(b, ctx, key)
  }

  /** WaitForUnlock: the single-attempt protocol of the in-memory store,
      with this store's Peek and Open; `atWake` is the backend state when
      the timer fires. */
  function WaitForUnlock<T>(codec: Codec<T>, b: CapsuleMap<Bytes>, atWake: CapsuleMap<Bytes>,
                            ctx: Context, key: string, now: Time, event: WakeEvent): (r: Result<T>)
    ensures ctx.Done? ==> r == Err(ContextErr(ctx.reason))
    ensures ctx.Live? && key == "" ==> r == Err(ErrInvalidKey)
    ensures ctx.Live? && key != "" && key !in b ==> r == Err(ErrCapsuleNotFound)
    ensures ctx.Live? && key != "" && key in b && b[key].unlockTime <= now ==> r == codec.decode(b[key].value)
    ensures ctx.Live? && key != "" && key in b && now < b[key].unlockTime ==>
      r == match event
           case CtxDone(reason) => Err(ContextErr(reason))
           case TimerFired(wakeNow, wakeCtx) => Open(codec, atWake, wakeCtx, key, wakeNow)
  {
    if ctx.Done? then Err(ContextErr(ctx.reason))
    else
      match Peek(b, ctx, key, now)
      case Err(e) => Err(e)
      case Ok(md) =>
        if !md.isLocked then Open(codec, b, ctx, key, now)
        else
          match event
          case CtxDone(reason) => Err(ContextErr(reason))
          case TimerFired(wakeNow, wakeCtx) => Open(codec, atWake, wakeCtx, key, wakeNow)
  }
}
