/** The interpreter holder: one process-wide object that owns at most one
    loaded interpreter, closes the old one before loading another, and hands
    the current one (possibly none) to callers. */
module TensorFlow {
  import opened Base
  import opened Engine

  /** Why a load left no new interpreter: the engine refused the model (its
      constructor throws), or the asset could not be read (`IOException`). */
  datatype LoadError = InvalidModel(source: ModelSource) | AssetUnreadable(fileName: string)

  /** The outcome of a load: normal return, or the exception it throws. */
  datatype Outcome = Success | Failure(error: LoadError)

  class TFLite {
    /** The current interpreter, or null when nothing is loaded. */
    var interpreter: Interpreter?
    /** Every interpreter this holder has created, oldest first. */
    ghost var handles: seq<Interpreter>

    /** The handle held, if any, is the newest one created, and every other
        handle this holder created has been closed. */
    ghost predicate Valid()
      reads this, handles
    {
      && (interpreter != null ==> |handles| > 0 && handles[|handles| - 1] == interpreter)
      && (forall k :: 0 <= k < |handles| && handles[k] != interpreter ==> handles[k].closed)
    }

    /** The handles this holder created that are still open. */
    ghost function OpenHandles(): set<Interpreter>
      reads this, handles
    {
      set h | h in handles && !h.closed
    }

    /** The private constructor: nothing loaded yet. */
    constructor ()
      ensures Valid() && interpreter == null && handles == []
    {
      interpreter := null;
      handles := [];
    }

    /** `release`: closes the held interpreter and forgets it; with nothing
        held it changes nothing, so a second call is a no-op. */
    method Release()
      requires Valid()
      modifies this, interpreter
      ensures Valid() && interpreter == null && handles == old(handles)
      ensures old(interpreter) != null ==> old(interpreter).closed
      ensures old(interpreter) == null ==> unchanged(this)
      ensures OpenHandles() == {}
    {
      if interpreter != null {
        interpreter.Close();
        interpreter := null;
      }
    }

    /** Every direct `loadModel` overload: releases the held interpreter, then
        constructs a new one from `source`. `parse` stands for the engine's
        reading of a model: when it refuses the model the constructor throws
        after the release, and the holder is left with nothing. */
    method LoadModel(source: ModelSource, parse: ModelSource -> Option<Model>) returns (outcome: Outcome)
      requires Valid()
      modifies this, interpreter
      ensures Valid()
      ensures old(interpreter) != null ==> old(interpreter).closed
      ensures parse(source).Some? ==>
        && outcome == Success
        && interpreter != null && fresh(interpreter) && !interpreter.closed
        && interpreter.source == source && interpreter.model == parse(source).value
        && handles == old(handles) + [interpreter]
        && OpenHandles() == {interpreter}
      ensures parse(source).None? ==>
        && outcome == Failure(InvalidModel(source))
        && interpreter == null && handles == old(handles)
        && OpenHandles() == {}
    {
      Release();
      match parse(source) {
        case None =>
          outcome := Failure(InvalidModel(source));
        case Some(model) =>
          ghost var closedBefore := handles;
          var created := new Interpreter(source, model);
          interpreter := created;
          handles := handles + [created];
          outcome := Success;
          OnlyNewestOpen(closedBefore);
      }
    }

    /** When every handle before the newest one is closed and the newest is
        held and open, the held handle is the only open one. */
    lemma OnlyNewestOpen(older: seq<Interpreter>)
      requires interpreter != null && !interpreter.closed && handles == older + [interpreter]
      requires forall k :: 0 <= k < |older| ==> older[k].closed
      ensures Valid() && OpenHandles() == {interpreter}
    {
      forall h | h in OpenHandles() ensures h == interpreter {
        var k :| 0 <= k < |handles| && handles[k] == h;
        if k < |older| {
          assert handles[k] == older[k];
        }
      }
      assert handles[|handles| - 1] in OpenHandles();
    }

    /** `loadModel(AssetManager, String)`: the asset is read before anything
        else, so when it cannot be read the held interpreter stays loaded;
        otherwise its bytes are loaded as a memory-mapped buffer. `assets`
        stands for the files the asset manager can open. */
    method LoadModelFromAsset(assets: map<string, seq<byte>>, fileName: string,
                              parse: ModelSource -> Option<Model>) returns (outcome: Outcome)
      requires Valid()
      modifies this, interpreter
      ensures Valid()
      ensures fileName !in assets ==>
        outcome == Failure(AssetUnreadable(fileName)) && unchanged(this) &&
        (old(interpreter) != null ==> unchanged(old(interpreter)))
      ensures fileName in assets ==>
        var source := Mapped(assets[fileName]);
        && (old(interpreter) != null ==> old(interpreter).closed)
        && (parse(source).Some? ==>
              && outcome == Success && interpreter != null && fresh(interpreter)
              && interpreter.source == source && interpreter.model == parse(source).value
              && handles == old(handles) + [interpreter] && OpenHandles() == {interpreter})
        && (parse(source).None? ==>
              && outcome == Failure(InvalidModel(source)) && interpreter == null
              && handles == old(handles) && OpenHandles() == {})
    {
      if fileName !in assets {
        return Failure(AssetUnreadable(fileName));
      }
      outcome := LoadModel(Mapped(assets[fileName]), parse);
    }

    /** `getInterpreter`: the held interpreter, or null. */
    method GetInterpreter() returns (current: Interpreter?)
      ensures current == interpreter
    {
      current := interpreter;
    }

    /** `run`: hands the held interpreter, possibly null, to `runner` and
        returns what it returns; the holder itself is left as it is. */
    method Run<T>(runner: Interpreter? -> T) returns (result: T)
      ensures result == runner(interpreter)
    {
      result := runner(interpreter);
    }
  }

  /** At most one interpreter created by the holder is open at any time, and
      if one is, it is the held one. */
  lemma AtMostOneOpen(holder: TFLite)
    requires holder.Valid()
    ensures holder.OpenHandles() <= {holder.interpreter}
    ensures |holder.OpenHandles()| <= 1
  {
    forall h | h in holder.OpenHandles() ensures h == holder.interpreter {
      var k :| 0 <= k < |holder.handles| && holder.handles[k] == h;
    }
    if holder.OpenHandles() != {} {
      var h :| h in holder.OpenHandles();
      assert holder.OpenHandles() == {h};
    }
  }

  /** The class's static state: the single shared instance. */
  class Statics {
    var instance: TFLite?

    /** The shared holder, once it exists, is consistent. */
    ghost predicate Valid()
      reads this, instance, if instance == null then {} else set h | h in instance.handles
    {
      instance != null ==> instance.Valid()
    }

    constructor ()
      ensures Valid() && instance == null
    {
      instance := null;
    }

    /** `getInstance`: creates the instance on the first call only and returns
        the same object on every call. */
    method GetInstance() returns (shared: TFLite)
      requires Valid()
      modifies this
      ensures Valid() && shared.Valid() && instance == shared
      ensures old(instance) != null ==> shared == old(instance) && unchanged(this)
      ensures old(instance) == null ==>
        fresh(shared) && shared.Valid() && shared.interpreter == null && shared.handles == []
    {
      if instance == null {
        instance := new TFLite();
      }
      shared := instance;
    }
  }

  /** Two calls to `getInstance` give the same holder. */
  method GetInstanceTwice(statics: Statics) returns (first: TFLite, second: TFLite)
    requires statics.Valid()
    modifies statics
    ensures statics.Valid() && first.Valid()
    ensures first == second == statics.instance
  {
    first := statics.GetInstance();
    second := statics.GetInstance();
  }

  /** Loading twice and releasing twice: the second load closes the first
      interpreter, `getInterpreter` then returns the newest one, and after the
      first release it returns null, as it does after the second. */
  method ReloadAndRelease(holder: TFLite, first: ModelSource, second: ModelSource,
                          parse: ModelSource -> Option<Model>)
    returns (firstHandle: Interpreter?, afterLoad: Interpreter?, afterRelease: Interpreter?,
             afterSecondRelease: Interpreter?)
    requires holder.Valid() && parse(first).Some? && parse(second).Some?
    modifies holder, holder.interpreter
    ensures firstHandle != null && firstHandle.closed && firstHandle.source == first
    ensures afterLoad != null && afterLoad != firstHandle && afterLoad.source == second
    ensures |holder.handles| > 0 && afterLoad == holder.handles[|holder.handles| - 1]
    ensures afterRelease == null && afterSecondRelease == null
    ensures holder.Valid() && holder.OpenHandles() == {}
  {
    var _ := holder.LoadModel(first, parse);
    firstHandle := holder.interpreter;
    var _ := holder.LoadModel(second, parse);
    afterLoad := holder.GetInterpreter();
    holder.Release();
    afterRelease := holder.GetInterpreter();
    holder.Release();
    afterSecondRelease := holder.GetInterpreter();
  }
}
