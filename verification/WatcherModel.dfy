/** The ZooKeeper watcher as a transition system, and what its handlers get to see. */
module WatcherModel {
  import opened Options

  /** What reading a file gives. */
  datatype Fetched = Contents(data: string) | ZookeeperError

  /** Calls of the handlers, and the moments at which the remembered data is wiped. */
  datatype Event = Valid(state: bool) | Config(data: string) | Error(message: string) | Reset

  const INVALID_PATH := "Invalid pointer path"
  const INVALID_GET := "Invalid get on file path"
  const BAD_CONNECTION := "Connection interrupted with Zookeeper, re-establishing"

  datatype Watcher = Watcher(
    pointer: bool, validFile: bool, oldData: string, oldPointed: string,
    pointPath: string, pointedAtExpired: bool, log: seq<Event>)

  function New(pointer: bool): Watcher {
    Watcher(pointer, false, "", "", "", false, [])
  }

  function Logged(w: Watcher, e: Event): Watcher {
    w.(log := w.log + [e])
  }

  /** The handler is called when the state changes. */
  function SetValid(w: Watcher, state: bool): Watcher {
    var w' := w.(validFile := state);
    if w.validFile != state then Logged(w', Valid(state)) else w'
  }

  /** New data is remembered and delivered. */
  function Deliver(w: Watcher, data: string): Watcher {
    if w.oldData != data then Logged(w.(oldData := data), Config(data)) else w
  }

  function Wipe(w: Watcher): Watcher {
    Logged(w.(oldData := ""), Reset)
  }

  function UpdatePointed(w: Watcher, pointed: Fetched): Watcher {
    if w.pointedAtExpired then w
    else
      match pointed
      case ZookeeperError =>
        Logged(SetValid(Wipe(w), false).(pointedAtExpired := true), Error(INVALID_PATH))
      case Contents(data) => SetValid(Deliver(w, data), true)
  }

  /** `pointed` is what reading the pointed file would give, if it is read. */
  function UpdateFile(w: Watcher, file: Fetched, pointed: Fetched): (Watcher, bool) {
    match file
    case ZookeeperError => (Logged(SetValid(w, false), Error(INVALID_GET)), false)
    case Contents(data) =>
      if !w.pointer then (SetValid(Deliver(w, data), true), true)
      else if data != "" then
        var w' := w.(pointedAtExpired := false, pointPath := data);
        (if w'.oldPointed != data then UpdatePointed(w'.(oldPointed := data), pointed) else w', true)
      else
        (Logged(SetValid(Wipe(w.(pointedAtExpired := true, oldPointed := "")), false), Error(INVALID_PATH)), true)
  }

  /** A reconnection forgets the data and the pointer, then reads until it succeeds. */
  function Reconnect(w: Watcher): Watcher {
    Wipe(SetValid(w, false)).(oldPointed := "")
  }

  function Attempts(w: Watcher, attempts: seq<(Fetched, Fetched)>): Watcher
    decreases |attempts|
  {
    if attempts == [] then w
    else
      var (w', success) := UpdateFile(w, attempts[0].0, attempts[0].1);
      if success then w' else Attempts(w', attempts[1..])
  }

  /** What can happen to a watcher; a lost session, or a file that cannot be read, makes it connect anew. */
  datatype Stimulus =
    | FileChanged(file: Fetched, pointed: Fetched, attempts: seq<(Fetched, Fetched)>)
    | PointedChanged(pointed: Fetched)
    | Suspended
    | Lost(attempts: seq<(Fetched, Fetched)>)

  function React(w: Watcher, s: Stimulus): Watcher {
    match s
    case FileChanged(file, pointed, attempts) =>
      var (w', success) := UpdateFile(w, file, pointed);
      if success then w' else Attempts(Reconnect(w'), attempts)
    case PointedChanged(pointed) => UpdatePointed(w, pointed)
    case Suspended => Logged(SetValid(w, false), Error(BAD_CONNECTION))
    case Lost(attempts) => Attempts(Reconnect(w), attempts)
  }

  /** A new watcher reads its file once, then waits for things to happen. */
  function Run(pointer: bool, first: (Fetched, Fetched), stimuli: seq<Stimulus>): Watcher
    decreases |stimuli|
  {
    if stimuli == [] then UpdateFile(New(pointer), first.0, first.1).0
    else React(Run(pointer, first, stimuli[..|stimuli| - 1]), stimuli[|stimuli| - 1])
  }

  // ------------------------------------------------------ what the log shows

  /** The state last reported; nothing reported means not valid. */
  function LastValid(log: seq<Event>): bool {
    if log == [] then false
    else
      match log[|log| - 1]
      case Valid(state) => state
      case _ => LastValid(log[..|log| - 1])
  }

  /** The configuration last delivered since the last reset, "" if none. */
  function Current(log: seq<Event>): string {
    if log == [] then ""
    else
      match log[|log| - 1]
      case Config(data) => data
      case Reset => ""
      case _ => Current(log[..|log| - 1])
  }

  /** The configuration last delivered at all. */
  function LastConfig(log: seq<Event>): Option<string> {
    if log == [] then None
    else
      match log[|log| - 1]
      case Config(data) => Some(data)
      case _ => LastConfig(log[..|log| - 1])
  }

  /** Every report changes the state, and every delivery changes the current configuration. */
  predicate Changes(log: seq<Event>)
  {
    forall i :: 0 <= i < |log| ==>
      && (log[i].Valid? ==> log[i].state != LastValid(log[..i]))
      && (log[i].Config? ==> log[i].data != Current(log[..i]))
  }

  ghost predicate Inv(w: Watcher) {
    && Changes(w.log)
    && w.validFile == LastValid(w.log)
    && w.oldData == Current(w.log)
    && (w.pointer && w.validFile ==> !w.pointedAtExpired)
  }

  /** Without the last clause, which a step may break and mend. */
  ghost predicate LogInv(w: Watcher) {
    Changes(w.log) && w.validFile == LastValid(w.log) && w.oldData == Current(w.log)
  }

  lemma ChangesSnoc(log: seq<Event>, e: Event)
    requires Changes(log)
    requires e.Valid? ==> e.state != LastValid(log)
    requires e.Config? ==> e.data != Current(log)
    ensures Changes(log + [e])
    ensures (log + [e])[..|log + [e]| - 1] == log
  {
    var all := log + [e];
    assert all[..|log|] == log;
    forall i | 0 <= i < |all|
      ensures all[i].Valid? ==> all[i].state != LastValid(all[..i])
      ensures all[i].Config? ==> all[i].data != Current(all[..i])
    {
      if i < |log| {
        assert all[..i] == log[..i] && all[i] == log[i];
      }
    }
  }

  lemma SetValidInv(w: Watcher, state: bool)
    requires LogInv(w)
    ensures LogInv(SetValid(w, state)) && SetValid(w, state).oldData == w.oldData
  {
    ChangesSnoc(w.log, if w.validFile != state then Valid(state) else Reset);
  }

  lemma DeliverInv(w: Watcher, data: string)
    requires LogInv(w)
    ensures LogInv(Deliver(w, data)) && Deliver(w, data).validFile == w.validFile
  {
    ChangesSnoc(w.log, if w.oldData != data then Config(data) else Reset);
  }

  lemma WipeInv(w: Watcher)
    requires LogInv(w)
    ensures LogInv(Wipe(w))
  {
    ChangesSnoc(w.log, Reset);
  }

  lemma ErrorInv(w: Watcher, message: string)
    requires LogInv(w)
    ensures LogInv(Logged(w, Error(message)))
  {
    ChangesSnoc(w.log, Error(message));
  }

  lemma UpdatePointedInv(w: Watcher, pointed: Fetched)
    requires LogInv(w) && (w.validFile ==> !w.pointedAtExpired)
    ensures var w' := UpdatePointed(w, pointed);
            LogInv(w') && (w'.validFile ==> !w'.pointedAtExpired)
  {
    if !w.pointedAtExpired {
      match pointed
      case ZookeeperError =>
        WipeInv(w);
        SetValidInv(Wipe(w), false);
        ErrorInv(SetValid(Wipe(w), false).(pointedAtExpired := true), INVALID_PATH);
      case Contents(data) =>
        DeliverInv(w, data);
        SetValidInv(Deliver(w, data), true);
    }
  }

  lemma UpdateFileInv(w: Watcher, file: Fetched, pointed: Fetched)
    requires Inv(w)
    ensures Inv(UpdateFile(w, file, pointed).0)
  {
    match file
    case ZookeeperError =>
      SetValidInv(w, false);
      ErrorInv(SetValid(w, false), INVALID_GET);
    case Contents(data) =>
      if !w.pointer {
        DeliverInv(w, data);
        SetValidInv(Deliver(w, data), true);
      } else if data != "" {
        UpdatePointedInv(w.(pointedAtExpired := false, pointPath := data, oldPointed := data), pointed);
      } else {
        var w1 := w.(pointedAtExpired := true, oldPointed := "");
        WipeInv(w1);
        SetValidInv(Wipe(w1), false);
        ErrorInv(SetValid(Wipe(w1), false), INVALID_PATH);
      }
  }

  lemma {:induction false} AttemptsInv(w: Watcher, attempts: seq<(Fetched, Fetched)>)
    requires Inv(w)
    ensures Inv(Attempts(w, attempts))
    decreases |attempts|
  {
    if attempts == [] {
    } else {
      UpdateFileInv(w, attempts[0].0, attempts[0].1);
      if !UpdateFile(w, attempts[0].0, attempts[0].1).1 {
        AttemptsInv(UpdateFile(w, attempts[0].0, attempts[0].1).0, attempts[1..]);
      }
    }
  }

  lemma ReactInv(w: Watcher, s: Stimulus)
    requires Inv(w) && (s.PointedChanged? ==> w.pointer)
    ensures Inv(React(w, s)) && React(w, s).pointer == w.pointer
  {
    match s
    case FileChanged(file, pointed, attempts) =>
      UpdateFileInv(w, file, pointed);
      var (w', success) := UpdateFile(w, file, pointed);
      if !success { ReconnectInv(w', attempts); }
    case PointedChanged(pointed) => UpdatePointedInv(w, pointed);
    case Suspended =>
      SetValidInv(w, false);
      ErrorInv(SetValid(w, false), BAD_CONNECTION);
    case Lost(attempts) => ReconnectInv(w, attempts);
  }

  lemma ReconnectInv(w: Watcher, attempts: seq<(Fetched, Fetched)>)
    requires Inv(w)
    ensures var w' := Attempts(Reconnect(w), attempts);
            Inv(w') && w'.pointer == w.pointer
  {
    SetValidInv(w, false);
    WipeInv(SetValid(w, false));
    AttemptsInv(Reconnect(w), attempts);
    AttemptsPointer(Reconnect(w), attempts);
  }

  lemma {:induction false} AttemptsPointer(w: Watcher, attempts: seq<(Fetched, Fetched)>)
    ensures Attempts(w, attempts).pointer == w.pointer
    decreases |attempts|
  {
    if attempts == [] {
    } else {
      AttemptsPointer(UpdateFile(w, attempts[0].0, attempts[0].1).0, attempts[1..]);
    }
  }

  /** Only a pointer has a pointed file to watch. */
  ghost predicate Possible(pointer: bool, stimuli: seq<Stimulus>) {
    forall i :: 0 <= i < |stimuli| && stimuli[i].PointedChanged? ==> pointer
  }

  lemma {:induction false} RunInv(pointer: bool, first: (Fetched, Fetched), stimuli: seq<Stimulus>)
    requires Possible(pointer, stimuli)
    ensures Inv(Run(pointer, first, stimuli)) && Run(pointer, first, stimuli).pointer == pointer
    decreases |stimuli|
  {
    if stimuli == [] {
      UpdateFileInv(New(pointer), first.0, first.1);
    } else {
      RunInv(pointer, first, stimuli[..|stimuli| - 1]);
      ReactInv(Run(pointer, first, stimuli[..|stimuli| - 1]), stimuli[|stimuli| - 1]);
    }
  }

  /** The next report after position i. */
  ghost predicate NextReport(log: seq<Event>, i: int, j: int) {
    && 0 <= i < j < |log| && log[i].Valid? && log[j].Valid?
    && forall k :: i < k < j ==> !log[k].Valid?
  }

  ghost predicate FirstReport(log: seq<Event>, j: int) {
    && 0 <= j < |log| && log[j].Valid? && forall k :: 0 <= k < j ==> !log[k].Valid?
  }

  /** The next delivery after position i, with no reset between. */
  ghost predicate NextDelivery(log: seq<Event>, i: int, j: int) {
    && 0 <= i < j < |log| && log[i].Config? && log[j].Config?
    && forall k :: i < k < j ==> !log[k].Config? && !log[k].Reset?
  }

  lemma {:induction false} LastValidSince(log: seq<Event>, i: nat, j: nat)
    requires i <= j <= |log| && forall k :: i <= k < j ==> !log[k].Valid?
    ensures LastValid(log[..j]) == LastValid(log[..i])
    decreases j
  {
    if i < j {
      assert log[..j][..j - 1] == log[..j - 1];
      LastValidSince(log, i, j - 1);
    }
  }

  lemma {:induction false} CurrentSince(log: seq<Event>, i: nat, j: nat)
    requires i <= j <= |log| && forall k :: i <= k < j ==> !log[k].Config? && !log[k].Reset?
    ensures Current(log[..j]) == Current(log[..i])
    decreases j
  {
    if i < j {
      assert log[..j][..j - 1] == log[..j - 1];
      CurrentSince(log, i, j - 1);
    }
  }

  lemma {:induction false} CurrentIsLast(log: seq<Event>)
    ensures Current(log) == "" || LastConfig(log) == Some(Current(log))
    decreases |log|
  {
    if log == [] {
    } else {
      CurrentIsLast(log[..|log| - 1]);
    }
  }

  lemma FirstReportIsTrue(log: seq<Event>, j: int)
    requires Changes(log) && FirstReport(log, j)
    ensures log[j].state
  {
    LastValidSince(log, 0, j);
    assert log[..0] == [];
  }

  lemma NextReportDiffers(log: seq<Event>, i: int, j: int)
    requires Changes(log) && NextReport(log, i, j)
    ensures log[j].state == !log[i].state
  {
    LastValidSince(log, i + 1, j);
    assert log[..i + 1][..i] == log[..i];
  }

  /**
   * Main result: in every run the validity handler is called with True first and
   * then strictly alternates; remembered data is the last configuration
   * delivered; and with a pointer, valid means that the pointer has not expired.
   */
  lemma ReportsAlternate(pointer: bool, first: (Fetched, Fetched), stimuli: seq<Stimulus>)
    requires Possible(pointer, stimuli)
    ensures var w := Run(pointer, first, stimuli);
            && (forall j :: FirstReport(w.log, j) ==> w.log[j].state)
            && (forall i, j :: NextReport(w.log, i, j) ==> w.log[j].state == !w.log[i].state)
            && (w.oldData != "" ==> LastConfig(w.log) == Some(w.oldData))
            && (pointer && w.validFile ==> !w.pointedAtExpired)
  {
    RunInv(pointer, first, stimuli);
    var w := Run(pointer, first, stimuli);
    CurrentIsLast(w.log);
    forall j | FirstReport(w.log, j) ensures w.log[j].state {
      FirstReportIsTrue(w.log, j);
    }
    forall i, j | NextReport(w.log, i, j) ensures w.log[j].state == !w.log[i].state {
      NextReportDiffers(w.log, i, j);
    }
  }

  /** Main result: two deliveries in a row with no reset between them differ. */
  lemma DeliveriesDiffer(pointer: bool, first: (Fetched, Fetched), stimuli: seq<Stimulus>)
    requires Possible(pointer, stimuli)
    ensures var log := Run(pointer, first, stimuli).log;
            forall i, j :: NextDelivery(log, i, j) ==> log[i].data != log[j].data
  {
    RunInv(pointer, first, stimuli);
    var log := Run(pointer, first, stimuli).log;
    forall i, j | NextDelivery(log, i, j) ensures log[i].data != log[j].data {
      CurrentSince(log, i + 1, j);
      assert log[..i + 1][..i] == log[..i];
    }
  }

  // ------------------------------------------------- what is read is delivered

  /** The handler calls of a good read: the contents if they are new, and that the watcher is valid if it was not. */
  function CallsOfRead(log: seq<Event>, data: string): seq<Event> {
    (if Current(log) == data then [] else [Config(data)]) + if LastValid(log) then [] else [Valid(true)]
  }

  /** That the watcher is no longer valid, if it was. */
  function CallsOfLoss(log: seq<Event>): seq<Event> {
    if LastValid(log) then [Valid(false)] else []
  }

  /** The good read of the watched contents that an update makes, if it makes one: of the file, or of what a new pointer points to. */
  function ReadBy(w: Watcher, file: Fetched, pointed: Fetched): Option<string> {
    if file.ZookeeperError? then None
    else if !w.pointer then Some(file.data)
    else if file.data != "" && file.data != w.oldPointed && pointed.Contents? then Some(pointed.data)
    else None
  }

  /**
   * What an update adds to the log of a watcher: the contents it reads are remembered
   * and delivered if they are not the current configuration; a file that cannot be
   * read and a pointer that leads nowhere are reported; the pointer known already
   * changes nothing that is reported.
   */
  lemma UpdateDelivers(w: Watcher, file: Fetched, pointed: Fetched)
    requires Inv(w)
    ensures var w' := UpdateFile(w, file, pointed).0;
            if file.Contents? && w.pointer then
              w'.oldPointed == file.data && w'.pointPath == (if file.data == "" then w.pointPath else file.data)
              && (w'.pointedAtExpired <==> file.data == "" || (file.data != w.oldPointed && pointed.ZookeeperError?))
            else
              w'.oldPointed == w.oldPointed && w'.pointPath == w.pointPath && w'.pointedAtExpired == w.pointedAtExpired
    ensures var (w', success) := UpdateFile(w, file, pointed);
            && (success <==> file.Contents?)
            && match ReadBy(w, file, pointed)
               case Some(data) => w'.validFile && w'.oldData == data && w'.log == w.log + CallsOfRead(w.log, data)
               case None =>
                 if file.ZookeeperError? then
                   !w'.validFile && w'.oldData == w.oldData
                   && w'.log == w.log + CallsOfLoss(w.log) + [Error("Invalid get on file path")]
                 else if file.data != "" && file.data == w.oldPointed then
                   w'.validFile == w.validFile && w'.oldData == w.oldData && w'.log == w.log
                 else
                   !w'.validFile && w'.oldData == ""
                   && w'.log == w.log + [Reset] + CallsOfLoss(w.log) + [Error("Invalid pointer path")]
  {
    if file.Contents? {
      if !w.pointer {
        GoodRead(w, file.data);
      } else if file.data == "" {
        BadPointer(w.(pointedAtExpired := true, oldPointed := ""));
      } else if file.data != w.oldPointed {
        PointedDelivers(w.(pointedAtExpired := false, pointPath := file.data, oldPointed := file.data), pointed);
      }
    }
  }

  lemma GoodRead(w: Watcher, data: string)
    requires LogInv(w)
    ensures var w' := SetValid(Deliver(w, data), true);
            w'.validFile && w'.oldData == data && w'.log == w.log + CallsOfRead(w.log, data)
  {
    assert w.log + [Config(data)] + [Valid(true)] == w.log + ([Config(data)] + [Valid(true)]);
  }

  lemma BadPointer(w: Watcher)
    requires LogInv(w)
    ensures var w' := Logged(SetValid(Wipe(w), false), Error(INVALID_PATH));
            && !w'.validFile && w'.oldData == ""
            && w'.log == w.log + [Reset] + CallsOfLoss(w.log) + [Error("Invalid pointer path")]
  {
  }

  /** The same for an event of the pointed file, which an expired pointer ignores. */
  lemma PointedDelivers(w: Watcher, pointed: Fetched)
    requires LogInv(w)
    ensures var w' := UpdatePointed(w, pointed);
            if w.pointedAtExpired then w' == w
            else
              match pointed
              case Contents(data) => w'.validFile && w'.oldData == data && w'.log == w.log + CallsOfRead(w.log, data)
              case ZookeeperError =>
                !w'.validFile && w'.oldData == "" && w'.pointedAtExpired
                && w'.log == w.log + [Reset] + CallsOfLoss(w.log) + [Error("Invalid pointer path")]
  {
    if !w.pointedAtExpired {
      match pointed
      case Contents(data) => GoodRead(w, data);
      case ZookeeperError => BadPointer(w);
    }
  }

  /** An interrupted connection is reported, a new one forgets what was delivered. */
  lemma LossIsReported(w: Watcher)
    requires Inv(w)
    ensures var w' := React(w, Suspended);
            w'.log == w.log + CallsOfLoss(w.log) + [Error("Connection interrupted with Zookeeper, re-establishing")]
            && !w'.validFile && w'.oldData == w.oldData
    ensures Reconnect(w).log == w.log + CallsOfLoss(w.log) + [Reset] && Current(Reconnect(w).log) == ""
    ensures !Reconnect(w).validFile && Reconnect(w).oldPointed == ""
  {
  }

  /**
   * Main result: whatever happened before, contents that are read are remembered,
   * and the configuration handler is called with them exactly once if they are not
   * what it was last called with since the last reset, and not at all if they are.
   */
  lemma GoodReadsAreDelivered(
      pointer: bool, first: (Fetched, Fetched), stimuli: seq<Stimulus>, file: Fetched, pointed: Fetched)
    requires Possible(pointer, stimuli)
    ensures var w := Run(pointer, first, stimuli);
            && (ReadBy(w, file, pointed).Some? ==>
                  var (w', data) := (UpdateFile(w, file, pointed).0, ReadBy(w, file, pointed).value);
                  && w'.oldData == data
                  && w'.log == w.log + (if Current(w.log) != data then [Config(data)] else [])
                                     + (if LastValid(w.log) then [] else [Valid(true)]))
            && (!w.pointedAtExpired && pointed.Contents? ==>
                  var (w', data) := (React(w, PointedChanged(pointed)), pointed.data);
                  && w'.oldData == data
                  && w'.log == w.log + (if Current(w.log) != data then [Config(data)] else [])
                                     + (if LastValid(w.log) then [] else [Valid(true)]))
  {
    RunInv(pointer, first, stimuli);
    var w := Run(pointer, first, stimuli);
    UpdateDelivers(w, file, pointed);
    PointedDelivers(w, pointed);
    forall data {
      CallsAreInOrder(w.log, data);
    }
  }

  lemma CallsAreInOrder(log: seq<Event>, data: string)
    ensures log + CallsOfRead(log, data) ==
            log + (if Current(log) != data then [Config(data)] else []) + (if LastValid(log) then [] else [Valid(true)])
  {
  }

  /** The last of two reads. */
  function Later(first: Option<string>, second: Option<string>): Option<string> {
    if second.Some? then second else first
  }

  /** The last good read, after the attempts of a new connection. */
  function ReadByAttempts(w: Watcher, attempts: seq<(Fetched, Fetched)>, last: Option<string>): Option<string>
    decreases |attempts|
  {
    if attempts == [] then last
    else
      var last' := Later(last, ReadBy(w, attempts[0].0, attempts[0].1));
      if attempts[0].0.Contents? then last'
      else ReadByAttempts(UpdateFile(w, attempts[0].0, attempts[0].1).0, attempts[1..], last')
  }

  /** The last good read, after one more stimulus. */
  function ReadByReaction(w: Watcher, s: Stimulus, last: Option<string>): Option<string> {
    match s
    case FileChanged(file, pointed, attempts) =>
      if file.Contents? then Later(last, ReadBy(w, file, pointed))
      else ReadByAttempts(Reconnect(UpdateFile(w, file, pointed).0), attempts, last)
    case PointedChanged(pointed) =>
      if !w.pointedAtExpired && pointed.Contents? then Some(pointed.data) else last
    case Suspended => last
    case Lost(attempts) => ReadByAttempts(Reconnect(w), attempts, last)
  }

  /** The last good read of the watched contents in a run. */
  function LastRead(pointer: bool, first: (Fetched, Fetched), stimuli: seq<Stimulus>): Option<string>
    decreases |stimuli|
  {
    if stimuli == [] then ReadBy(New(pointer), first.0, first.1)
    else
      var before := stimuli[..|stimuli| - 1];
      ReadByReaction(Run(pointer, first, before), stimuli[|stimuli| - 1], LastRead(pointer, first, before))
  }

  /** A valid watcher remembers the last good read. */
  predicate ShowsRead(w: Watcher, last: Option<string>) {
    w.validFile ==> last == Some(w.oldData)
  }

  lemma {:induction false} AttemptsShowRead(w: Watcher, attempts: seq<(Fetched, Fetched)>, last: Option<string>)
    requires Inv(w) && !w.validFile
    ensures ShowsRead(Attempts(w, attempts), ReadByAttempts(w, attempts, last))
    decreases |attempts|
  {
    if attempts != [] {
      UpdateDelivers(w, attempts[0].0, attempts[0].1);
      UpdateFileInv(w, attempts[0].0, attempts[0].1);
      if attempts[0].0.ZookeeperError? {
        AttemptsShowRead(UpdateFile(w, attempts[0].0, attempts[0].1).0, attempts[1..], last);
      }
    }
  }

  lemma ReconnectShowsRead(w: Watcher, attempts: seq<(Fetched, Fetched)>, last: Option<string>)
    requires Inv(w)
    ensures ShowsRead(Attempts(Reconnect(w), attempts), ReadByAttempts(Reconnect(w), attempts, last))
  {
    SetValidInv(w, false);
    WipeInv(SetValid(w, false));
    AttemptsShowRead(Reconnect(w), attempts, last);
  }

  lemma ReactionShowsRead(w: Watcher, s: Stimulus, last: Option<string>)
    requires Inv(w) && ShowsRead(w, last)
    ensures ShowsRead(React(w, s), ReadByReaction(w, s, last))
  {
    match s
    case FileChanged(file, pointed, attempts) =>
      UpdateDelivers(w, file, pointed);
      if file.ZookeeperError? {
        UpdateFileInv(w, file, pointed);
        ReconnectShowsRead(UpdateFile(w, file, pointed).0, attempts, last);
      }
    case PointedChanged(pointed) => PointedDelivers(w, pointed);
    case Suspended => LossIsReported(w);
    case Lost(attempts) => ReconnectShowsRead(w, attempts, last);
  }

  lemma {:induction false} RunShowsRead(pointer: bool, first: (Fetched, Fetched), stimuli: seq<Stimulus>)
    requires Possible(pointer, stimuli)
    ensures ShowsRead(Run(pointer, first, stimuli), LastRead(pointer, first, stimuli))
    decreases |stimuli|
  {
    if stimuli == [] {
      UpdateDelivers(New(pointer), first.0, first.1);
    } else {
      var n := |stimuli| - 1;
      RunShowsRead(pointer, first, stimuli[..n]);
      RunInv(pointer, first, stimuli[..n]);
      ReactionShowsRead(Run(pointer, first, stimuli[..n]), stimuli[n], LastRead(pointer, first, stimuli[..n]));
    }
  }

  /**
   * Main result: in every run a valid watcher has delivered what it last read: the
   * last good read of the watched contents is what it remembers and the current
   * configuration of its log, and unless it is empty the last configuration that
   * the handler was called with.
   */
  lemma ValidDeliveredLastRead(pointer: bool, first: (Fetched, Fetched), stimuli: seq<Stimulus>)
    requires Possible(pointer, stimuli)
    ensures var (w, last) := (Run(pointer, first, stimuli), LastRead(pointer, first, stimuli));
            w.validFile ==> last == Some(w.oldData) == Some(Current(w.log))
                            && (last.value != "" ==> LastConfig(w.log) == last)
  {
    RunInv(pointer, first, stimuli);
    RunShowsRead(pointer, first, stimuli);
    CurrentIsLast(Run(pointer, first, stimuli).log);
  }

  // ----------------------------------------------- after a failed pointed read

  /** Invalid with this pointer: as a pointed file that cannot be read leaves the watcher. */
  predicate Failed(w: Watcher, path: string) {
    w.pointer && !w.validFile && w.oldPointed == path && path != ""
  }

  /** The first read that succeeds, of the file and of what it points to. */
  function FirstRead(attempts: seq<(Fetched, Fetched)>): Option<(string, Fetched)> {
    if attempts == [] then None
    else if attempts[0].0.Contents? then Some((attempts[0].0.data, attempts[0].1))
    else FirstRead(attempts[1..])
  }

  /** A new connection reads a pointer, and the file it points to can be read. */
  predicate Recovers(attempts: seq<(Fetched, Fetched)>) {
    FirstRead(attempts).Some? && FirstRead(attempts).value.0 != "" && FirstRead(attempts).value.1.Contents?
  }

  /** What makes a failed watcher valid again: another pointer, a change of the pointed file, or a new connection. */
  predicate Revives(w: Watcher, s: Stimulus) {
    match s
    case FileChanged(Contents(data), pointed, _) => data != "" && data != w.oldPointed && pointed.Contents?
    case FileChanged(ZookeeperError, _, attempts) => Recovers(attempts)
    case PointedChanged(pointed) => !w.pointedAtExpired && pointed.Contents?
    case Suspended => false
    case Lost(attempts) => Recovers(attempts)
  }

  lemma {:induction false} AttemptsRecover(w: Watcher, attempts: seq<(Fetched, Fetched)>)
    requires w.pointer && !w.validFile && w.oldPointed == ""
    ensures Attempts(w, attempts).validFile <==> Recovers(attempts)
    decreases |attempts|
  {
    if attempts != [] && attempts[0].0.ZookeeperError? {
      AttemptsRecover(UpdateFile(w, attempts[0].0, attempts[0].1).0, attempts[1..]);
    }
  }

  lemma RevivesExactly(w: Watcher, path: string, s: Stimulus)
    requires Failed(w, path)
    ensures React(w, s).validFile <==> Revives(w, s)
  {
    match s
    case FileChanged(ZookeeperError, pointed, attempts) =>
      AttemptsRecover(Reconnect(UpdateFile(w, ZookeeperError, pointed).0), attempts);
    case Lost(attempts) => AttemptsRecover(Reconnect(w), attempts);
    case _ =>
  }

  /** No other pointer is read, the pointed file is not read again, and no new connection is made. */
  predicate KeepsPointer(path: string, s: Stimulus) {
    match s
    case FileChanged(file, _, _) => file == Contents(path)
    case PointedChanged(pointed) => pointed.ZookeeperError?
    case Suspended => true
    case Lost(_) => false
  }

  /**
   * Main result: reading the same pointer again does not retry a pointed file that
   * failed.  From a failed state of a run on, the watcher stays invalid, however
   * often the pointer is read and whatever its file could give by now, until the
   * pointer changes, the pointed file is read, or a new connection is made.
   */
  lemma {:induction false} SamePointerDoesNotRetry(
      first: (Fetched, Fetched), before: seq<Stimulus>, after: seq<Stimulus>, path: string)
    requires Failed(Run(true, first, before), path)
    requires forall i :: 0 <= i < |after| ==> KeepsPointer(path, after[i])
    ensures Failed(Run(true, first, before + after), path)
    decreases |after|
  {
    if after == [] {
      assert before + after == before;
    } else {
      var n := |after| - 1;
      SamePointerDoesNotRetry(first, before, after[..n], path);
      assert (before + after)[..|before + after| - 1] == before + after[..n];
    }
  }

  /** A failed read of a pointed file leads there. */
  lemma FailedReadFails(w: Watcher, path: string)
    requires w.pointer && path != "" && path != w.oldPointed
    ensures Failed(UpdateFile(w, Contents(path), ZookeeperError).0, path)
  {
  }

  /** A run in which the pointed file is back, the pointer is read again, and the watcher is still invalid. */
  lemma InvalidThoughReadable()
    ensures var first := (Contents("/b"), ZookeeperError);
            var again := FileChanged(Contents("/b"), Contents("window: 60"), []);
            Failed(Run(true, first, [again]), "/b")
  {
    var first := (Contents("/b"), ZookeeperError);
    var again := FileChanged(Contents("/b"), Contents("window: 60"), []);
    FailedReadFails(New(true), "/b");
    SamePointerDoesNotRetry(first, [], [again], "/b");
    assert [] + [again] == [again];
  }
}
