/** The backend-delegating store as an object: it holds a reference to its
    backend, here an in-memory store of bytes, and a codec. Each method is a
    sequence of backend calls with early returns and is proved to compute
    the function of module Persistent of the same name.
 */
module PersistentCapsule {
  import opened Capsules
  import Persistent
  import TimeCapsule

  class PersistentTimeCapsule<T> {
    const storage: TimeCapsule.MemoryTimeCapsule<Persistent.Bytes>
    const codec: Persistent.Codec<T>

    /** NewWithStorage. */
    constructor (storage: TimeCapsule.MemoryTimeCapsule<Persistent.Bytes>, codec: Persistent.Codec<T>)
      ensures this.storage == storage && this.codec == codec
    {
      this.storage := storage;
      this.codec := codec;
    }

    method Store(ctx: Context, key: string, value: T, unlockTime: Time, now: Time) returns (status: Outcome)
      modifies storage
      ensures Step(storage.capsules, status) == Persistent.Store(codec, old(storage.capsules), ctx, key, value, unlockTime, now)
    {
      if ctx.Done? {
        return Fail(ContextErr(ctx.reason));
      }
      if key == "" {
        return Fail(ErrInvalidKey);
      }
      var data := codec.encode(value);
      if data.Err? {
        return Fail(data.error);
      }
      status := storage.Store(ctx, key, data.value, unlockTime, now);
    }

    method Open(ctx: Context, key: string, now: Time) returns (r: Result<T>)
      ensures r == Persistent.Open(codec, storage.capsules, ctx, key, now)
    {
      if ctx.Done? {
        return Err(ContextErr(ctx.reason));
      }
      if key == "" {
        return Err(ErrInvalidKey);
      }
      var data := storage.Open(ctx, key, now);
      if data.Err? {
        return Err(data.error);
      }
      r := codec.decode(data.value);
    }

    method Peek(ctx: Context, key: string, now: Time) returns (r: Result<Metadata>)
      ensures r == Persistent.Peek(storage.capsules, ctx, key, now)
    {
      if ctx.Done? {
        return Err(ContextErr(ctx.reason));
      }
      if key == "" {
        return Err(ErrInvalidKey);
      }
      r := storage.Peek(ctx, key, now);
    }

    method Delay(ctx: Context, key: string, delay: Duration, now: Time) returns (status: Outcome)
      modifies storage
      ensures Step(storage.capsules, status) == Persistent.Delay(old(storage.capsules), ctx, key, delay, now)
    {
      if ctx.Done? {
        return Fail(ContextErr(ctx.reason));
      }
      if key == "" {
        return Fail(ErrInvalidKey);
      }
      var metadata := storage.Peek(ctx, key, now);
      if metadata.Err? {
        return Fail(metadata.error);
      }
      var newUnlockTime := now + delay;
      var data := storage.Open(ctx, key, now);
      if data.Err? {
        return Fail(data.error);
      }
      status := storage.Store(ctx, key, data.value, newUnlockTime, now);
    }

    method Delete(ctx: Context, key: string) returns (status: Outcome)
      modifies storage
      ensures Step(storage.capsules, status) == Persistent.Delete(old(storage.capsules), ctx, key)
    {
      if ctx.Done? {
        return Fail(ContextErr(ctx.reason));
      }
      if key == "" {
        return Fail(ErrInvalidKey);
      }
      status := storage.Delete(ctx, key);
    }

    method Exists(ctx: Context, key: string) returns (present: bool)
      ensures present == Persistent.Exists(storage.capsules, ctx, key)
    {
      if ctx.Done? {
        return false;
      }
      if key == "" {
        return false;
      }
      present := storage.Exists(ctx, key);
    }

    /** WaitForUnlock with no other caller acting on the backend during the wait. */
    method WaitForUnlock(ctx: Context, key: string, now: Time, event: WakeEvent) returns (r: Result<T>)
      ensures r == Persistent.WaitForUnlock(codec, storage.capsules, storage.capsules, ctx, key, now, event)
    {
      if ctx.Done? {
        return Err(ContextErr(ctx.reason));
      }
      var metadata := Peek(ctx, key, now);
      if metadata.Err? {
        return Err(metadata.error);
      }
      if !metadata.value.isLocked {
        r := Open(ctx, key, now);
        return;
      }
      match event
      case CtxDone(reason) =>
        return Err(ContextErr(reason));
      case TimerFired(wakeNow, wakeCtx) =>
        r := Open(wakeCtx, key, wakeNow);
    }
  }
}
