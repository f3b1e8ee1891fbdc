/** The ZooKeeper watcher as the object it is: one file, possibly a pointer to another one. */
module ZookeeperWatching {
  import opened WatcherModel

  datatype KazooState = Suspended | Lost | Connected

  class ZookeeperWatcher {
    const pointer: bool
    var validFile: bool
    var oldData: string
    var oldPointed: string
    var pointPath: string
    var pointedAtExpired: bool
    var doNotRestart: bool
    /** The calls of the three handlers, in order. */
    var log: seq<Event>

    ghost function State(): Watcher
      reads this
    {
      Watcher(pointer, validFile, oldData, oldPointed, pointPath, pointedAtExpired, log)
    }

    /** A new watcher reads its file once; if that fails it waits for the next event. */
    constructor (pointer: bool, first: (Fetched, Fetched))
      ensures State() == Run(pointer, first, []) && !doNotRestart
    {
      this.pointer := pointer;
      validFile, oldData, oldPointed, pointPath, pointedAtExpired := false, "", "", "", false;
      doNotRestart, log := false, [];
      new;
      SetValid(false);
      var _ := UpdateFile(first.0, first.1);
    }

    method SetValid(state: bool)
      modifies this`validFile, this`log
      ensures State() == WatcherModel.SetValid(old(State()), state)
    {
      var oldState := validFile;
      validFile := state;
      if oldState != validFile {
        log := log + [Valid(validFile)];
      }
    }

    method CompareData(data: string) returns (changed: bool)
      modifies this`oldData
      ensures oldData == data && (changed <==> old(oldData) != data)
    {
      changed := oldData != data;
      if changed {
        oldData := data;
      }
    }

    method ComparePointer(data: string) returns (changed: bool)
      modifies this`oldPointed
      ensures oldPointed == data && (changed <==> old(oldPointed) != data)
    {
      changed := oldPointed != data;
      if changed {
        oldPointed := data;
      }
    }

    /** `pointed` is what reading the pointed file gives. */
    method UpdatePointed(pointed: Fetched)
      modifies this
      ensures State() == WatcherModel.UpdatePointed(old(State()), pointed) && doNotRestart == old(doNotRestart)
    {
      if !pointedAtExpired {
        if pointed.ZookeeperError? {
          oldData, log := "", log + [Reset];
          SetValid(false);
          pointedAtExpired := true;
          log := log + [Error(INVALID_PATH)];
          return;
        }
        var changed := CompareData(pointed.data);
        if changed {
          log := log + [Config(pointed.data)];
        }
        SetValid(true);
      }
    }

    method UpdateFile(file: Fetched, pointed: Fetched) returns (success: bool)
      modifies this
      ensures (State(), success) == WatcherModel.UpdateFile(old(State()), file, pointed)
      ensures doNotRestart == old(doNotRestart)
    {
      if file.ZookeeperError? {
        SetValid(false);
        log := log + [Error(INVALID_GET)];
        return false;
      }
      var result := file.data;
      if pointer {
        if result != "" {
          pointedAtExpired := false;
          pointPath := result;
          var moved := ComparePointer(result);
          if moved {
            UpdatePointed(pointed);
          }
        } else {
          pointedAtExpired := true;
          oldPointed, oldData, log := "", "", log + [Reset];
          SetValid(false);
          log := log + [Error(INVALID_PATH)];
        }
      } else {
        var changed := CompareData(result);
        if changed {
          log := log + [Config(result)];
        }
        SetValid(true);
      }
      success := true;
    }

    /** Connects anew and reads until that succeeds; the list says what each read gives. */
    method InitConnections(attempts: seq<(Fetched, Fetched)>)
      modifies this
      ensures State() == Attempts(Reconnect(old(State())), attempts) && doNotRestart == old(doNotRestart)
    {
      var success := false;
      SetValid(false);
      oldData, oldPointed, log := "", "", log + [Reset];
      assert State() == Reconnect(old(State()));
      var i := 0;
      while !success && i < |attempts|
        invariant i <= |attempts| && doNotRestart == old(doNotRestart)
        invariant Attempts(Reconnect(old(State())), attempts) == if success then State() else Attempts(State(), attempts[i..])
      {
        assert attempts[i..][1..] == attempts[i + 1..];
        success := UpdateFile(attempts[i].0, attempts[i].1);
        i := i + 1;
      }
      assert i == |attempts| ==> attempts[i..] == [];
    }

    method WatchFile(file: Fetched, pointed: Fetched, attempts: seq<(Fetched, Fetched)>)
      modifies this
      ensures State() == React(old(State()), FileChanged(file, pointed, attempts))
    {
      var success := UpdateFile(file, pointed);
      if !success {
        InitConnections(attempts);
      }
    }

    method WatchPointed(pointed: Fetched)
      modifies this
      ensures State() == React(old(State()), PointedChanged(pointed))
    {
      UpdatePointed(pointed);
    }

    method Close(killRestart: bool)
      modifies this`doNotRestart
      ensures doNotRestart == killRestart && State() == old(State())
    {
      doNotRestart := killRestart;
    }

    /** Only a closed watcher ignores the loss of its session. */
    method StateListener(state: KazooState, attempts: seq<(Fetched, Fetched)>)
      modifies this
      ensures State() == match state
                case Suspended => React(old(State()), Stimulus.Suspended)
                case Lost => if doNotRestart then old(State()) else React(old(State()), Stimulus.Lost(attempts))
                case Connected => old(State())
      ensures doNotRestart == old(doNotRestart)
    {
      if state.Suspended? {
        SetValid(false);
        log := log + [Error(BAD_CONNECTION)];
      } else if state.Lost? && !doNotRestart {
        InitConnections(attempts);
      }
    }
  }
}
