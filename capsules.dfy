/** Values and semantics of the time-gated key/value store.

    Each operation of the store is given here as a pure function of a
    snapshot of the key-to-capsule map, the caller's context and the
    current time. The imperative store (module TimeCapsule) is proved to
    compute exactly these functions, and the backend-delegating store
    (module Persistent) is built from them.

    Time is explicit: `now` is the reading of the clock at the moment an
    operation runs, in nanoseconds since an arbitrary epoch.
 */
module Capsules {

  type Time = int
  type Duration = int

  /** Why a context ended (Go's context.Canceled and context.DeadlineExceeded). */
  datatype CtxReason = Canceled | DeadlineExceeded

  /** The caller's execution context at the moment of a check: still live,
      or done for a reason that ctx.Err() reports. */
  datatype Context = Live | Done(reason: CtxReason)

  /** The error kinds the store returns. `External` stands for an error
      produced outside the core (a codec failure) and passed on unchanged. */
  datatype Error =
    | ErrCapsuleNotFound
    | ErrCapsuleLocked
    | ErrInvalidKey
    | ContextErr(reason: CtxReason)
    | External(detail: string)

  datatype Result<T> = Ok(value: T) | Err(error: Error)

  /** The result of an operation that returns only an error (nil is Pass). */
  datatype Outcome = Pass | Fail(error: Error)

  /** A time-locked value. */
  datatype Capsule<T> = Capsule(value: T, unlockTime: Time, createdAt: Time)

  /** What Peek reveals about a capsule: never its value. */
  datatype Metadata = Metadata(unlockTime: Time, createdAt: Time, isLocked: bool)

  type CapsuleMap<T> = map<string, Capsule<T>>

  /** The map after a mutating operation, with the operation's result. */
  datatype Step<T> = Step(capsules: CapsuleMap<T>, status: Outcome)

  /** How a blocked WaitForUnlock is woken: the context ends first, or the
      timer fires at `wakeNow`, when the context is in state `wakeCtx`. */
  datatype WakeEvent = CtxDone(reason: CtxReason) | TimerFired(wakeNow: Time, wakeCtx: Context)

  /** time.Time.Before: strictly earlier. */
  predicate Before(t: Time, u: Time) {
    t < u
  }

  /** The check every operation makes on entry: a done context first,
      then the empty key. */
  function Guard(ctx: Context, key: string): (r: Outcome)
    ensures r == Pass <==> ctx.Live? && key != ""
    ensures ctx.Done? ==> r == Fail(ContextErr(ctx.reason))
    ensures ctx.Live? && key == "" ==> r == Fail(ErrInvalidKey)
  {
    if ctx.Done? then Fail(ContextErr(ctx.reason))
    else if key == "" then Fail(ErrInvalidKey)
    else Pass
  }

  /** Store: an unconditional upsert stamped with the current time. */
  function Store<T>(m: CapsuleMap<T>, ctx: Context, key: string, value: T, unlockTime: Time, now: Time): (r: Step<T>)
    ensures r.status == Pass <==> ctx.Live? && key != ""
    ensures r.status.Fail? ==> r.capsules == m && r.status == Guard(ctx, key)
    ensures r.status == Pass ==>
      && r.capsules.Keys == m.Keys + {key}
      && r.capsules[key] == Capsule(value, unlockTime, now)
      && forall k :: k in m && k != key ==> r.capsules[k] == m[k]
  {
    match Guard(ctx, key)
    case Fail(e) => Step(m, Fail(e))
    case Pass => Step(m[key := Capsule(value, unlockTime, now)], Pass)
  }

  /** Open: the value, once the unlock time has been reached. */
  function Open<T>(m: CapsuleMap<T>, ctx: Context, key: string, now: Time): (r: Result<T>)
    ensures ctx.Done? ==> r == Err(ContextErr(ctx.reason))
    ensures ctx.Live? && key == "" ==> r == Err(ErrInvalidKey)
    ensures ctx.Live? && key != "" && key !in m ==> r == Err(ErrCapsuleNotFound)
    ensures r == Err(ErrCapsuleLocked) <==> ctx.Live? && key != "" && key in m && now < m[key].unlockTime
    ensures r.Ok? <==> ctx.Live? && key != "" && key in m && m[key].unlockTime <= now
    ensures r.Ok? ==> r.value == m[key].value
  {
    match Guard(ctx, key)
    case Fail(e) => Err(e)
    case Pass =>
      if key !in m then Err(ErrCapsuleNotFound)
      else if Before(now, m[key].unlockTime) then Err(ErrCapsuleLocked)
      else Ok(m[key].value)
  }

  /** Peek: the capsule's times and a lock flag computed against `now`. */
  function Peek<T>(m: CapsuleMap<T>, ctx: Context, key: string, now: Time): (r: Result<Metadata>)
    ensures r.Ok? <==> ctx.Live? && key != "" && key in m
    ensures ctx.Done? ==> r == Err(ContextErr(ctx.reason))
    ensures ctx.Live? && key == "" ==> r == Err(ErrInvalidKey)
    ensures ctx.Live? && key != "" && key !in m ==> r == Err(ErrCapsuleNotFound)
    ensures r.Ok? ==> r.value.unlockTime == m[key].unlockTime && r.value.createdAt == m[key].createdAt
    ensures r.Ok? ==> (r.value.isLocked <==> now < m[key].unlockTime)
    ensures r.Err? ==> r.error != ErrCapsuleLocked
  {
    match Guard(ctx, key)
    case Fail(e) => Err(e)
    case Pass =>
      if key !in m then Err(ErrCapsuleNotFound)
      else
        var c := m[key];
        Ok(Metadata(c.unlockTime, c.createdAt, Before(now, c.unlockTime)))
  }

  /** Delay: the unlock time becomes `now + delay`; value and creation time stay. */
  function Delay<T>(m: CapsuleMap<T>, ctx: Context, key: string, delay: Duration, now: Time): (r: Step<T>)
    ensures r.status == Pass <==> ctx.Live? && key != "" && key in m
    ensures r.status.Fail? ==> r.capsules == m
    ensures ctx.Done? ==> r.status == Fail(ContextErr(ctx.reason))
    ensures ctx.Live? && key == "" ==> r.status == Fail(ErrInvalidKey)
    ensures ctx.Live? && key != "" && key !in m ==> r.status == Fail(ErrCapsuleNotFound)
    ensures r.status == Pass ==>
      && r.capsules.Keys == m.Keys
      && r.capsules[key] == Capsule(m[key].value, now + delay, m[key].createdAt)
      && forall k :: k in m && k != key ==> r.capsules[k] == m[k]
  {
    match Guard(ctx, key)
    case Fail(e) => Step(m, Fail(e))
    case Pass =>
      if key !in m then Step(m, Fail(ErrCapsuleNotFound))
      else
        var c := m[key];
        Step(m[key := c.(unlockTime := now + delay)], Pass)
  }

  /** Delete: removes the key, which must be present. */
  function Delete<T>(m: CapsuleMap<T>, ctx: Context, key: string): (r: Step<T>)
    ensures r.status == Pass <==> ctx.Live? && key != "" && key in m
    ensures r.status.Fail? ==> r.capsules == m
    ensures ctx.Done? ==> r.status == Fail(ContextErr(ctx.reason))
    ensures ctx.Live? && key == "" ==> r.status == Fail(ErrInvalidKey)
    ensures ctx.Live? && key != "" && key !in m ==> r.status == Fail(ErrCapsuleNotFound)
    ensures r.status == Pass ==>
      && r.capsules.Keys == m.Keys - {key}
      && forall k :: k in r.capsules ==> r.capsules[k] == m[k]
  {
    match Guard(ctx, key)
    case Fail(e) => Step(m, Fail(e))
    case Pass =>
      if key !in m then Step(m, Fail(ErrCapsuleNotFound))
      else Step(m - {key}, Pass)
  }

  /** Exists: presence of the key, whatever its lock state; never an error. */
  function Exists<T>(m: CapsuleMap<T>, ctx: Context, key: string): (r: bool)
    ensures r <==> ctx.Live? && key != "" && key in m
  {
    match Guard(ctx, key)
    case Fail(_) => false
    case Pass => key in m
  }

  /** WaitForUnlock: one snapshot by Peek at `now`; Open at once when it is
      not locked; otherwise one wait, woken by `event`, after which Open runs
      against `atWake`, the map as other callers have left it by then. */
  function WaitForUnlock<T>(m: CapsuleMap<T>, atWake: CapsuleMap<T>, ctx: Context, key: string, now: Time, event: WakeEvent): (r: Result<T>)
    ensures ctx.Done? ==> r == Err(ContextErr(ctx.reason))
    ensures ctx.Live? && key == "" ==> r == Err(ErrInvalidKey)
    ensures ctx.Live? && key != "" && key !in m ==> r == Err(ErrCapsuleNotFound)
    ensures ctx.Live? && key != "" && key in m && m[key].unlockTime <= now ==> r == Ok(m[key].value)
    ensures ctx.Live? && key != "" && key in m && now < m[key].unlockTime ==>
      r == match event
           case CtxDone(reason) => Err(ContextErr(reason))
           case TimerFired(wakeNow, wakeCtx) => Open(atWake, wakeCtx, key, wakeNow)
    ensures r == Err(ErrCapsuleLocked) ==>
      event.TimerFired? && event.wakeCtx.Live? && key in atWake && event.wakeNow < atWake[key].unlockTime
  {
    if ctx.Done? then Err(ContextErr(ctx.reason))
    else
      match Peek(m, ctx, key, now)
      case Err(e) => Err(e)
      case Ok(md) =>
        if !md.isLocked then Open(m, ctx, key, now)
        else
          match event
          case CtxDone(reason) => Err(ContextErr(reason))
          case TimerFired(wakeNow, wakeCtx) => Open(atWake, wakeCtx, key, wakeNow)
  }
}
