/** Opening, activating, closing and recovering the desktop audio backend.  There is one DSP
    callback; it moves between the live output stream, the ring that the stream's closure
    returns it through when it is dropped, and the backend's own field.

    What the devices answer is an argument of the operation that asks them. */
module AudioRecovery {

  import opened Util

  /** Callbacks are opaque; a name tells two apart. */
  type Callback = nat

  /** What each fallible device operation does. */
  datatype Devices = Devices(opens: bool, buildsInput: bool, buildsOutput: bool, playsInput: bool, playsOutput: bool)

  datatype BackendError = AlreadyActive | NotOpened | NoDevices | NoCapture | NoPlayback | NotReturned

  /** Where the callback is. */
  datatype Place = Playing(callback: Callback) | Returned(callback: Callback) | Retained(callback: Callback) | Nowhere

  datatype View = View(place: Place, hasDevices: bool, capturing: bool, attempts: nat, failures: nat)

  // ---- What the operations do ----

  function Closed(v: View): View {
    var place := if v.place.Nowhere? then Nowhere else Retained(v.place.callback);
    v.(place := place, hasDevices := false, capturing := false)
  }

  function Opened(v: View, d: Devices): View {
    Closed(v).(hasDevices := d.opens)
  }

  /** An active or unopened backend drops the callback it is given; otherwise the callback ends up
      in the stream, or retained, or, when capture cannot start, in the return ring. */
  function Activated(v: View, callback: Callback, d: Devices): (View, Result<(), BackendError>) {
    if v.capturing || v.place.Playing? then (v, Err(AlreadyActive))
    else if !v.hasDevices then (v, Err(NotOpened))
    else
      var w := v.(hasDevices := false);
      if !d.buildsInput then (w.(place := Retained(callback)), Err(NoCapture))
      else if !d.buildsOutput then (w.(place := Retained(callback)), Err(NoPlayback))
      else if !d.playsInput then (w.(place := Returned(callback)), Err(NoCapture))
      else if !d.playsOutput then (w.(place := Retained(callback)), Err(NoPlayback))
      else (w.(place := Playing(callback), capturing := true), Ok(()))
  }

  /** The single-slot ring a dropped stream returns its callback through. */
  class ReturnRing {
    var slot: Option<Callback>

    constructor ()
      ensures slot == None
    {
      slot := None;
    }

    /** A full ring drops the callback. */
    method Push(callback: Callback)
      modifies this
      ensures slot == if old(slot).Some? then old(slot) else Some(callback)
    {
      if slot.None? {
        slot := Some(callback);
      }
    }

    method Pop() returns (callback: Option<Callback>)
      modifies this
      ensures callback == old(slot) && slot == None
    {
      callback := slot;
      slot := None;
    }
  }

  /** An output stream owns its closure, and that the callback and the ring's sending end. */
  datatype Stream = Stream(callback: Callback, ring: ReturnRing)

  class AudioBackend {
    var hasDevices: bool
    var inputStream: bool
    var outputStream: Option<Stream>
    var callbackReturn: ReturnRing?
    var retained: Option<Callback>
    var attempts: nat
    var failures: nat

    ghost predicate Valid()
      reads this, callbackReturn
    {
      && (outputStream.Some? ==>
            callbackReturn == outputStream.value.ring && callbackReturn.slot == None && retained == None)
      && (retained.Some? ==> callbackReturn != null ==> callbackReturn.slot == None)
      && (hasDevices ==> outputStream == None && (callbackReturn != null ==> callbackReturn.slot == None))
    }

    ghost function Abstract(): View
      reads this, callbackReturn
    {
      var place :=
        if outputStream.Some? then Playing(outputStream.value.callback)
        else if retained.Some? then Retained(retained.value)
        else if callbackReturn != null && callbackReturn.slot.Some? then Returned(callbackReturn.slot.value)
        else Nowhere;
      View(place, hasDevices, inputStream, attempts, failures)
    }

    /** The places that hold a callback, each by itself. */
    ghost function Holders(): nat
      reads this, callbackReturn
    {
      (if outputStream.Some? then 1 else 0) + (if retained.Some? then 1 else 0)
      + (if callbackReturn != null && callbackReturn.slot.Some? then 1 else 0)
    }

    /** A valid backend never holds the callback twice. */
    lemma HeldOnce()
      requires Valid()
      ensures Holders() == if Abstract().place.Nowhere? then 0 else 1
    {
    }

    constructor ()
      ensures Valid() && Abstract() == View(Nowhere, false, false, 0, 0) && callbackReturn == null
    {
      hasDevices, inputStream, outputStream, callbackReturn, retained := false, false, None, null, None;
      attempts, failures := 0, 0;
    }

    /** Takes the callback out of the return ring, and drops the ring once it is retained. */
    method ReclaimCallback()
      requires Valid() && outputStream == None
      modifies this`retained, this`callbackReturn, callbackReturn
      ensures Valid()
      ensures callbackReturn == if old(Abstract()).place.Nowhere? then old(callbackReturn) else null
      ensures Abstract() == old(Abstract()).(place := if old(Abstract()).place.Nowhere? then Nowhere
                                                     else Retained(old(Abstract()).place.callback))
    {
      if retained.None? && callbackReturn != null {
        var callback := callbackReturn.Pop();
        if callback.Some? {
          retained := callback;
        }
      }
      if retained.Some? {
        callbackReturn := null;
      }
    }

    method Close()
      requires Valid()
      modifies this, callbackReturn
      ensures Valid() && (callbackReturn == null || callbackReturn == old(callbackReturn))
      ensures Abstract() == Closed(old(Abstract()))
    {
      if outputStream.Some? {
        var stream := outputStream.value;
        outputStream := None;
        stream.ring.Push(stream.callback);
      }
      ReclaimCallback();
      inputStream := false;
      hasDevices := false;
    }

    method Open(d: Devices) returns (r: Result<(), BackendError>)
      requires Valid()
      modifies this, callbackReturn
      ensures Valid() && (callbackReturn == null || callbackReturn == old(callbackReturn))
      ensures Abstract() == Opened(old(Abstract()), d)
      ensures r == if d.opens then Ok(()) else Err(NoDevices)
    {
      Close();
      if !d.opens {
        return Err(NoDevices);
      }
      hasDevices := true;
      r := Ok(());
    }

    method Activate(callback: Callback, d: Devices) returns (r: Result<(), BackendError>)
      requires Valid()
      modifies this, callbackReturn
      ensures Valid() && (callbackReturn == null || callbackReturn == old(callbackReturn) || fresh(callbackReturn))
      ensures (Abstract(), r) == Activated(old(Abstract()), callback, d)
    {
      if inputStream || outputStream.Some? {
        return Err(AlreadyActive);
      }
      if !hasDevices {
        return Err(NotOpened);
      }
      hasDevices := false;
      retained := Some(callback);
      if !d.buildsInput {
        return Err(NoCapture);
      }
      var ring := new ReturnRing();
      callbackReturn := ring;
      var closure := Stream(retained.value, ring);
      retained := None;
      if !d.buildsOutput {
        // The closure is dropped before the error is handled.
        ring.Push(closure.callback);
        ReclaimCallback();
        return Err(NoPlayback);
      }
      if d.playsInput {
        inputStream := true;
      } else {
        // The stream is still alive here and is dropped on the way out.
        ReclaimCallback();
        ring.Push(closure.callback);
        return Err(NoCapture);
      }
      if !d.playsOutput {
        inputStream := false;
        ring.Push(closure.callback);
        ReclaimCallback();
        return Err(NoPlayback);
      }
      outputStream := Some(closure);
      retained := None;
      r := Ok(());
    }

    method Recover(d: Devices) returns (r: Result<(), BackendError>)
      requires Valid()
      modifies this, callbackReturn
      ensures Valid() && (callbackReturn == null || callbackReturn == old(callbackReturn) || fresh(callbackReturn))
      ensures (Abstract(), r) == Recovered(old(Abstract()), d)
      ensures Holders() == if Abstract().place.Nowhere? then 0 else 1
    {
      attempts := attempts + 1;
      Close();
      if retained.None? {
        failures := failures + 1;
        HeldOnce();
        return Err(NotReturned);
      }
      var callback := retained.value;
      retained := None;
      r := Reactivate(callback, d);
      HeldOnce();
    }

    /** Opens and activates; on failure the callback goes back to the backend. */
    method Reactivate(callback: Callback, d: Devices) returns (r: Result<(), BackendError>)
      requires Valid() && Abstract().place.Nowhere? && !inputStream
      modifies this, callbackReturn
      ensures Valid() && (callbackReturn == null || callbackReturn == old(callbackReturn) || fresh(callbackReturn))
      ensures r == if AllWork(d) then Ok(()) else Err(FirstFailure(d))
      ensures Abstract() == View(if r.Ok? then Playing(callback) else Retained(callback), false, r.Ok?,
                                 old(attempts), old(failures) + (if r.Ok? then 0 else 1))
    {
      var ready := Open(d);
      if ready.Err? {
        retained := Some(callback);
        failures := failures + 1;
        return Err(ready.error);
      }
      r := Activate(callback, d);
      if r.Err? {
        ReclaimCallback();
        failures := failures + 1;
      }
    }
  }

  // ---- Recovery ----

  predicate AllWork(d: Devices) {
    d.opens && d.buildsInput && d.buildsOutput && d.playsInput && d.playsOutput
  }

  function FirstFailure(d: Devices): BackendError
    requires !AllWork(d)
  {
    if !d.opens then NoDevices
    else if !d.buildsInput then NoCapture
    else if !d.buildsOutput then NoPlayback
    else if !d.playsInput then NoCapture
    else NoPlayback
  }

  /** A recovery needs the callback and every device operation; failing leaves the callback
      retained for the next attempt. */
  function Recovered(v: View, d: Devices): (View, Result<(), BackendError>) {
    var tried := v.(attempts := v.attempts + 1, hasDevices := false);
    if v.place.Nowhere? then
      (tried.(capturing := false, failures := v.failures + 1), Err(NotReturned))
    else if AllWork(d) then
      (tried.(place := Playing(v.place.callback), capturing := true), Ok(()))
    else
      (tried.(place := Retained(v.place.callback), capturing := false, failures := v.failures + 1),
       Err(FirstFailure(d)))
  }

  /** Any run of recovery attempts. */
  function RecoverRun(v: View, runs: seq<Devices>): View {
    if runs == [] then v else Recovered(RecoverRun(v, runs[..|runs| - 1]), runs[|runs| - 1]).0
  }

  function Failing(runs: seq<Devices>): nat {
    if runs == [] then 0 else Failing(runs[..|runs| - 1]) + (if AllWork(runs[|runs| - 1]) then 0 else 1)
  }

  /** However the devices answer, the callback is held throughout, it plays exactly when the last
      attempt found every device working, and the counters tell how many attempts failed. */
  lemma {:induction false} CallbackNeverLost(v: View, runs: seq<Devices>)
    requires !v.place.Nowhere? && runs != []
    ensures var w := RecoverRun(v, runs);
      && w.place == (if AllWork(runs[|runs| - 1]) then Playing(v.place.callback) else Retained(v.place.callback))
      && w.attempts == v.attempts + |runs| && w.failures == v.failures + Failing(runs)
  {
    if |runs| > 1 {
      CallbackNeverLost(v, runs[..|runs| - 1]);
    } else {
      assert runs[..0] == [] && RecoverRun(v, runs[..0]) == v;
    }
  }
}
