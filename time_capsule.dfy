/** The in-memory store: an object whose map of capsules is updated in place.

    Each method follows the Go method step by step (entry checks, lookup,
    update) and is proved to compute the corresponding function of module
    Capsules on the map it started from. Locking is not modelled: each
    call runs as one atomic step.
 */
module TimeCapsule {
  import opened Capsules

  class MemoryTimeCapsule<T> {
    var capsules: CapsuleMap<T>

    /** New: an empty store. */
    constructor ()
      ensures capsules == map[] && "" !in capsules
    {
      capsules := map[];
    }

    method Store(ctx: Context, key: string, value: T, unlockTime: Time, now: Time) returns (status: Outcome)
      modifies this
      ensures Step(capsules, status) == Capsules.Store(old(capsules), ctx, key, value, unlockTime, now)
      ensures "" !in old(capsules) ==> "" !in capsules
    {
      if ctx.Done? {
        return Fail(ContextErr(ctx.reason));
      }
      if key == "" {
        return Fail(ErrInvalidKey);
      }
      var capsule := Capsule(value, unlockTime, now);
      capsules := capsules[key := capsule];
      return Pass;
    }

    method Open(ctx: Context, key: string, now: Time) returns (r: Result<T>)
      ensures r == Capsules.Open(capsules, ctx, key, now)
    {
      if ctx.Done? {
        return Err(ContextErr(ctx.reason));
      }
      if key == "" {
        return Err(ErrInvalidKey);
      }
      if key !in capsules {
        return Err(ErrCapsuleNotFound);
      }
      var capsule := capsules[key];
      if Before(now, capsule.unlockTime) {
        return Err(ErrCapsuleLocked);
      }
      return Ok(capsule.value);
    }

    method Peek(ctx: Context, key: string, now: Time) returns (r: Result<Metadata>)
      ensures r == Capsules.Peek(capsules, ctx, key, now)
    {
      if ctx.Done? {
        return Err(ContextErr(ctx.reason));
      }
      if key == "" {
        return Err(ErrInvalidKey);
      }
      if key !in capsules {
        return Err(ErrCapsuleNotFound);
      }
      var capsule := capsules[key];
      return Ok(Metadata(capsule.unlockTime, capsule.createdAt, Before(now, capsule.unlockTime)));
    }

    method Delay(ctx: Context, key: string, delay: Duration, now: Time) returns (status: Outcome)
      modifies this
      ensures Step(capsules, status) == Capsules.Delay(old(capsules), ctx, key, delay, now)
      ensures "" !in old(capsules) ==> "" !in capsules
    {
      if ctx.Done? {
        return Fail(ContextErr(ctx.reason));
      }
      if key == "" {
        return Fail(ErrInvalidKey);
      }
      if key !in capsules {
        return Fail(ErrCapsuleNotFound);
      }
      var capsule := capsules[key];
      capsule := capsule.(unlockTime := now + delay);
      capsules := capsules[key := capsule];
      return Pass;
    }

    method Delete(ctx: Context, key: string) returns (status: Outcome)
      modifies this
      ensures Step(capsules, status) == Capsules.Delete(old(capsules), ctx, key)
      ensures "" !in old(capsules) ==> "" !in capsules
    {
      if ctx.Done? {
        return Fail(ContextErr(ctx.reason));
      }
      if key == "" {
        return Fail(ErrInvalidKey);
      }
      if key !in capsules {
        return Fail(ErrCapsuleNotFound);
      }
      capsules := capsules - {key};
      return Pass;
    }

    method Exists(ctx: Context, key: string) returns (present: bool)
      ensures present == Capsules.Exists(capsules, ctx, key)
    {
      if ctx.Done? {
        return false;
      }
      if key == "" {
        return false;
      }
      return key in capsules;
    }

    /** WaitForUnlock on a store that no other caller touches during the
        wait, so the map at wake-up is the map at the snapshot; the function
        Capsules.WaitForUnlock also covers a map changed in between. */
    method WaitForUnlock(ctx: Context, key: string, now: Time, event: WakeEvent) returns (r: Result<T>)
      ensures r == Capsules.WaitForUnlock(capsules, capsules, ctx, key, now, event)
    {
      if ctx.Done? {
        return Err(ContextErr(ctx.reason));
      }
      var metadata := Peek(ctx, key, now);
      if metadata.Err? {
        return Err(metadata.error);
      }
      if !metadata.value.isLocked {
        r := Open(ctx, key, now);
        return;
      }
      match event
      case CtxDone(reason) =>
        return Err(ContextErr(reason));
      case TimerFired(wakeNow, wakeCtx) =>
        r := Open(wakeCtx, key, wakeNow);
    }
  }
}
