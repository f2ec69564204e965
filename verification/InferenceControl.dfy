/** Which cameras run inference, with which strategy: records, control table and orchestrators. */
module InferenceControl {
  import opened Collections

  /** A value of a camera's stored metadata, as far as it is looked at. */
  datatype Json = Absent | JsonBool(flag: bool) | JsonString(text: string) | OtherJson

  /** `metadata` is the `inference` object of the stream metadata, when there is one. */
  datatype InferenceMetadata = InferenceMetadata(enabled: Json, strategy: Json)

  datatype CameraRecord = CameraRecord(id: string, source: string, metadata: Option<InferenceMetadata>)

  const FALLBACK_STRATEGY := "vjepa_probe"

  function EnabledOf(camera: CameraRecord): bool {
    if camera.metadata.Some? && camera.metadata.value.enabled.JsonBool? then camera.metadata.value.enabled.flag
    else true
  }

  function StrategyOf(camera: CameraRecord, default: string): string {
    if camera.metadata.Some?
       && camera.metadata.value.strategy.JsonString?
       && camera.metadata.value.strategy.text in {"vjepa_probe", "cnn_transformer"}
    then camera.metadata.value.strategy.text
    else default
  }

  /** A camera is disabled only by a stored `false`; its strategy is the stored one if that is one of
      the two there are, and the default otherwise. */
  lemma StoredSettingsMean(camera: CameraRecord, default: string)
    ensures !EnabledOf(camera) <==> camera.metadata.Some? && camera.metadata.value.enabled == JsonBool(false)
    ensures forall text :: text == "vjepa_probe" || text == "cnn_transformer" ==>
      (camera.metadata.Some? && camera.metadata.value.strategy == JsonString(text) ==>
         StrategyOf(camera, default) == text)
    ensures (camera.metadata.None?
             || (camera.metadata.value.strategy != JsonString("vjepa_probe")
                 && camera.metadata.value.strategy != JsonString("cnn_transformer"))) ==>
      StrategyOf(camera, default) == default
  {
  }

  /** Records by id; of two with one id the later counts. */
  function ById(records: seq<CameraRecord>): map<string, CameraRecord> {
    if records == [] then map[]
    else ById(records[..|records| - 1])[records[|records| - 1].id := records[|records| - 1]]
  }

  /** No later record has the same id. */
  ghost predicate Counts(records: seq<CameraRecord>, i: int) {
    0 <= i < |records| && forall j :: i < j < |records| ==> records[j].id != records[i].id
  }

  /** An id is there exactly if a record has it. */
  lemma {:induction false} ByIdHas(records: seq<CameraRecord>, c: string)
    ensures c in ById(records) <==> exists i :: 0 <= i < |records| && records[i].id == c
  {
    if records != [] {
      var before, n := records[..|records| - 1], |records| - 1;
      ByIdHas(before, c);
      if c in ById(before) {
        var i :| 0 <= i < |before| && before[i].id == c;
        assert records[i].id == c;
      }
      if i :| 0 <= i < |records| && records[i].id == c {
        assert i == n || before[i].id == c;
      }
    }
  }

  /** And stands for the last one that does. */
  lemma {:induction false} ByIdIsTheLast(records: seq<CameraRecord>, i: int)
    requires Counts(records, i)
    ensures records[i].id in ById(records) && ById(records)[records[i].id] == records[i]
  {
    if i < |records| - 1 {
      var before := records[..|records| - 1];
      assert before[i] == records[i] && Counts(before, i);
      ByIdIsTheLast(before, i);
    }
  }

  // ---------------------------------------------------------------- what a sync must establish

  /** Active, listed and enabled cameras with the strategy each should run. */
  function Wanted(byId: map<string, CameraRecord>, active: set<string>, default: string): map<string, string> {
    map c | c in byId && c in active && EnabledOf(byId[c]) :: StrategyOf(byId[c], default)
  }

  function WantedControls(byId: map<string, CameraRecord>, active: set<string>, default: string)
    : map<string, (bool, string)>
  {
    map c | c in Wanted(byId, active, default) :: (true, Wanted(byId, active, default)[c])
  }

  /** Cameras a sync turns off: in the table, still active and listed, but disabled. */
  function TurnedOff(byId: map<string, CameraRecord>, active: set<string>,
                     controls: map<string, (bool, string)>): set<string> {
    set c | c in controls && c in byId && c in active && !EnabledOf(byId[c])
  }

  /** What an enabled camera runs after a sync that resolved `strategy` for it, by its table entry
      and what it ran: a camera that runs under this very entry is left alone, another that runs is
      switched, and one that does not run is started - with the fallback if the strategy is empty. */
  function Runs(strategy: string, entry: Option<(bool, string)>, running: Option<string>): string {
    if running.None? then if strategy != "" then strategy else FALLBACK_STRATEGY
    else if entry.Some? && entry.value.1 == strategy then running.value
    else strategy
  }

  /** What runs afterwards: what is wanted, and whatever ran before that the sync does not turn
      off - also for a camera that is no longer listed. */
  function RunningAfter(byId: map<string, CameraRecord>, active: set<string>, default: string,
                        controls: map<string, (bool, string)>, running: map<string, string>): map<string, string> {
    var wanted := Wanted(byId, active, default);
    (running - TurnedOff(byId, active, controls))
    + map c | c in wanted :: Runs(wanted[c], Lookup(controls, c), Lookup(running, c))
  }

  /** What is wanted, by the records alone: the active, listed cameras that are not disabled, each
      enabled with the strategy its record resolves to. */
  lemma WantedMeans(byId: map<string, CameraRecord>, active: set<string>, default: string, c: string)
    ensures c in WantedControls(byId, active, default) <==>
      && c in byId && c in active
      && !(byId[c].metadata.Some? && byId[c].metadata.value.enabled == JsonBool(false))
    ensures c in WantedControls(byId, active, default) ==>
      var text := WantedControls(byId, active, default)[c].1;
      var stored := if byId[c].metadata.Some? then byId[c].metadata.value.strategy else Absent;
      && WantedControls(byId, active, default)[c].0
      && text == if stored == JsonString("vjepa_probe") then "vjepa_probe"
                 else if stored == JsonString("cnn_transformer") then "cnn_transformer"
                 else default
  {
    if c in byId {
      StoredSettingsMean(byId[c], default);
    }
  }

  /** What runs after a sync, camera by camera: a wanted camera that had an entry with this very
      strategy goes on as it was, any other wanted one runs the strategy, or the fallback if it is
      started with an empty one; a listed camera that was in the table and is disabled now stops;
      every other camera goes on, or does not run, as before. */
  lemma RunningMeans(byId: map<string, CameraRecord>, active: set<string>, default: string,
                     controls: map<string, (bool, string)>, running: map<string, string>, c: string)
    ensures var table, after := WantedControls(byId, active, default),
                                RunningAfter(byId, active, default, controls, running);
            if c in table then
              && c in after
              && after[c] == (if c !in running then if table[c].1 == "" then "vjepa_probe" else table[c].1
                              else if c in controls && controls[c].1 == table[c].1 then running[c]
                              else table[c].1)
            else if c in controls && c in byId && c in active then c !in after
            else Lookup(after, c) == Lookup(running, c)
  {
    hide EnabledOf, StrategyOf;
  }

  /** Every camera in the control table is enabled there and runs the recorded strategy. */
  ghost predicate Agrees(controls: map<string, (bool, string)>, running: map<string, string>) {
    forall c :: c in controls ==> controls[c].0 && c in running && running[c] == controls[c].1
  }

  /** Every camera in the control table is enabled there and runs the recorded strategy, or the
      fallback where an empty one is recorded. */
  ghost predicate Tracks(controls: map<string, (bool, string)>, running: map<string, string>) {
    forall c :: c in controls ==>
      && controls[c].0 && c in running
      && (running[c] == controls[c].1 || (controls[c].1 == "" && running[c] == FALLBACK_STRATEGY))
  }

  lemma SyncKeepsTracks(byId: map<string, CameraRecord>, active: set<string>, default: string,
                        controls: map<string, (bool, string)>, running: map<string, string>)
    requires Tracks(controls, running)
    ensures Tracks(WantedControls(byId, active, default), RunningAfter(byId, active, default, controls, running))
  {
    hide EnabledOf, StrategyOf;
  }

  /** The camera would be started with an empty strategy, or was and is left alone. */
  predicate StartedEmpty(strategy: string, entry: Option<(bool, string)>, running: Option<string>) {
    strategy == "" && (running.None? || (entry.Some? && entry.value.1 == "" && running.value != ""))
  }

  /** After a sync every camera in the table runs the recorded strategy exactly when none is started
      with an empty strategy, now or by an earlier sync: the manager then starts the fallback and
      the table records the empty one. If all agreed before, that is: exactly when every camera
      that resolves to an empty strategy runs already. */
  lemma SyncAgreesIff(byId: map<string, CameraRecord>, active: set<string>, default: string,
                      controls: map<string, (bool, string)>, running: map<string, string>)
    requires Tracks(controls, running)
    ensures var wanted := Wanted(byId, active, default);
            var agrees := Agrees(WantedControls(byId, active, default),
                                 RunningAfter(byId, active, default, controls, running));
            && (agrees <==>
                 forall c :: c in wanted ==> !StartedEmpty(wanted[c], Lookup(controls, c), Lookup(running, c)))
            && (Agrees(controls, running) ==> (agrees <==> forall c :: c in wanted ==> wanted[c] != "" || c in running))
            && (default != "" ==> agrees)
  {
    var wanted, table := Wanted(byId, active, default), WantedControls(byId, active, default);
    var after := RunningAfter(byId, active, default, controls, running);
    assert default != "" ==> forall c :: c in wanted ==> wanted[c] != "";
    forall c | c in wanted
      ensures table[c].0 && c in after
      ensures after[c] == table[c].1 <==> !StartedEmpty(wanted[c], Lookup(controls, c), Lookup(running, c)) {
    }
  }

  /** The case in small: an empty default strategy and one camera that is not running yet. */
  lemma EmptyDefaultDisagrees()
    ensures var byId := map["cam" := CameraRecord("cam", "rtsp", None)];
            var table := WantedControls(byId, {"cam"}, "");
            var after := RunningAfter(byId, {"cam"}, "", map[], map[]);
            table == map["cam" := (true, "")] && after == map["cam" := FALLBACK_STRATEGY] && !Agrees(table, after)
  {
    var byId := map["cam" := CameraRecord("cam", "rtsp", None)];
    assert Wanted(byId, {"cam"}, "") == map["cam" := ""];
    assert WantedControls(byId, {"cam"}, "") == map["cam" := (true, "")];
    assert RunningAfter(byId, {"cam"}, "", map[], map[]) == map["cam" := FALLBACK_STRATEGY];
    assert WantedControls(byId, {"cam"}, "")["cam"].1 == "";
  }

  /** A sync that starts with no orchestrator outside the table leaves none outside exactly when
      every camera in the table is still active and listed: one that has dropped out of the
      records loses its table entry and keeps its orchestrator. */
  lemma SyncLeavesNoOrphanIff(byId: map<string, CameraRecord>, active: set<string>, default: string,
                              controls: map<string, (bool, string)>, running: map<string, string>)
    requires running.Keys == controls.Keys
    ensures RunningAfter(byId, active, default, controls, running).Keys == WantedControls(byId, active, default).Keys
      <==> (forall c :: c in controls ==> c in byId && c in active)
  {
    var after, table := RunningAfter(byId, active, default, controls, running), WantedControls(byId, active, default);
    if c :| c in controls && !(c in byId && c in active) {
      assert c in after && c !in table;
    } else {
      forall c | c in after ensures c in table {
        assert c in controls || c in Wanted(byId, active, default);
      }
    }
  }

  /** The case in small: one active camera, listed in the table, and no record of it. */
  lemma UnlistedCameraKeepsItsOrchestrator()
    ensures var controls := map["cam" := (true, "vjepa_probe")];
            var running := map["cam" := "vjepa_probe"];
            && WantedControls(map[], {"cam"}, "vjepa_probe") == map[]
            && RunningAfter(map[], {"cam"}, "vjepa_probe", controls, running) == running
  {
  }

  /** What dealing with one active, listed camera makes of the table. */
  function SettledControls(controls: map<string, (bool, string)>, camera: string, record: CameraRecord, default: string)
    : map<string, (bool, string)>
  {
    if EnabledOf(record) then controls[camera := (true, StrategyOf(record, default))] else controls - {camera}
  }

  /** And of what runs. */
  function SettledRunning(controls: map<string, (bool, string)>, running: map<string, string>,
                          camera: string, record: CameraRecord, default: string): map<string, string>
  {
    if EnabledOf(record) then
      running[camera := Runs(StrategyOf(record, default), Lookup(controls, camera), Lookup(running, camera))]
    else if camera in controls then running - {camera}
    else running
  }

  /** What the table is once the listed cameras in `done` are dealt with. */
  ghost predicate TableProgress(controls: map<string, (bool, string)>, byId: map<string, CameraRecord>,
                                done: set<string>, default: string, controls0: map<string, (bool, string)>)
    requires done <= byId.Keys
  {
    && (forall c :: c in controls <==> if c in done then EnabledOf(byId[c]) else c in controls0)
    && (forall c :: c in controls ==>
         controls[c] == if c in done then (true, StrategyOf(byId[c], default)) else controls0[c])
  }

  /** And what runs. */
  ghost predicate RunProgress(running: map<string, string>, byId: map<string, CameraRecord>, done: set<string>,
                              default: string, controls0: map<string, (bool, string)>, running0: map<string, string>)
    requires done <= byId.Keys
  {
    && (forall c :: c in running <==>
         if c in done && (EnabledOf(byId[c]) || c in controls0) then EnabledOf(byId[c]) else c in running0)
    && (forall c :: c in running ==>
         running[c] ==
           if c in done && EnabledOf(byId[c])
           then Runs(StrategyOf(byId[c], default), Lookup(controls0, c), Lookup(running0, c))
           else running0[c])
  }

  lemma ProgressStarts(byId: map<string, CameraRecord>, default: string,
                       controls: map<string, (bool, string)>, running: map<string, string>)
    ensures TableProgress(controls, byId, {}, default, controls)
    ensures RunProgress(running, byId, {}, default, controls, running)
  {
  }

  lemma TableProgressStep(controls: map<string, (bool, string)>, byId: map<string, CameraRecord>, done: set<string>,
                          c: string, default: string, controls0: map<string, (bool, string)>)
    requires done <= byId.Keys && c in byId && c !in done
    requires TableProgress(controls, byId, done, default, controls0)
    ensures TableProgress(SettledControls(controls, c, byId[c], default), byId, done + {c}, default, controls0)
    ensures Lookup(controls, c) == Lookup(controls0, c)
  {
    hide EnabledOf, StrategyOf;
  }

  lemma RunProgressStep(controls: map<string, (bool, string)>, running: map<string, string>,
                        byId: map<string, CameraRecord>, done: set<string>, c: string, default: string,
                        controls0: map<string, (bool, string)>, running0: map<string, string>)
    requires done <= byId.Keys && c in byId && c !in done
    requires Lookup(controls, c) == Lookup(controls0, c)
    requires RunProgress(running, byId, done, default, controls0, running0)
    ensures RunProgress(SettledRunning(controls, running, c, byId[c], default), byId, done + {c}, default, controls0,
      running0)
  {
    hide EnabledOf, StrategyOf, Runs;
    assert Lookup(running, c) == Lookup(running0, c) && (c in controls <==> c in controls0);
    hide Lookup;
  }

  /** Dropping the unlisted entries first and then dealing with every listed camera gives what a
      sync must establish. */
  lemma TableProgressEnds(controls: map<string, (bool, string)>, byId: map<string, CameraRecord>, active: set<string>,
                          default: string, controls0: map<string, (bool, string)>)
    requires var listed := set c | c in byId && c in active;
             TableProgress(controls, byId, listed, default, map c | c in controls0 && c in listed :: controls0[c])
    ensures controls == WantedControls(byId, active, default)
  {
    hide EnabledOf, StrategyOf;
  }

  lemma RunProgressEnds(running: map<string, string>, byId: map<string, CameraRecord>, active: set<string>,
                        default: string, controls0: map<string, (bool, string)>, running0: map<string, string>)
    requires var listed := set c | c in byId && c in active;
             RunProgress(running, byId, listed, default,
                         map c | c in controls0 && c in listed :: controls0[c], running0)
    ensures running == RunningAfter(byId, active, default, controls0, running0)
  {
    hide EnabledOf, StrategyOf, Runs;
    var after := RunningAfter(byId, active, default, controls0, running0);
    forall c ensures c in running <==> c in after { }
    forall c | c in running ensures running[c] == after[c] { }
  }

  // ---------------------------------------------------------------- the manager

  class InferenceManager {
    /** The strategy each running orchestrator uses. */
    var orchestrators: map<string, string>
    var schedulers: set<string>

    ghost predicate Valid()
      reads this
    {
      schedulers == orchestrators.Keys
    }

    constructor ()
      ensures Valid() && orchestrators == map[]
    {
      orchestrators, schedulers := map[], {};
    }

    method StartCamera(camera: string, strategy: string)
      requires Valid()
      modifies this
      ensures Valid() && orchestrators == old(orchestrators)[camera := strategy]
    {
      schedulers := schedulers + {camera};
      orchestrators := orchestrators[camera := strategy];
    }

    method RemoveCamera(camera: string)
      requires Valid()
      modifies this
      ensures Valid() && orchestrators == old(orchestrators) - {camera}
    {
      orchestrators := orchestrators - {camera};
      schedulers := schedulers - {camera};
    }

    method ConfigureStream(camera: string, enabled: Option<bool>, strategy: Option<string>)
      requires Valid()
      modifies this
      ensures Valid()
      ensures enabled == Some(false) ==> orchestrators == old(orchestrators) - {camera}
      ensures enabled == Some(true) && camera !in old(orchestrators) ==>
        orchestrators == old(orchestrators)[camera :=
          if strategy.Some? && strategy.value != "" then strategy.value else FALLBACK_STRATEGY]
      ensures enabled != Some(false) && camera in old(orchestrators) ==>
        orchestrators == (if strategy.Some? then old(orchestrators)[camera := strategy.value] else old(orchestrators))
      ensures enabled == None && camera !in old(orchestrators) ==> orchestrators == old(orchestrators)
    {
      if enabled == Some(true) && camera !in orchestrators {
        StartCamera(camera, if strategy.Some? && strategy.value != "" then strategy.value else FALLBACK_STRATEGY);
      } else if enabled == Some(false) {
        RemoveCamera(camera);
      } else if strategy.Some? && camera in orchestrators {
        orchestrators := orchestrators[camera := strategy.value];
      }
    }
  }

  // ---------------------------------------------------------------- the table and its sync

  class ControlTable {
    const behaviorInference: bool
    const defaultStrategy: string
    const manager: InferenceManager
    var controls: map<string, (bool, string)>

    ghost predicate Valid()
      reads this, manager
    {
      manager.Valid() && Tracks(controls, manager.orchestrators)
    }

    constructor (behaviorInference: bool, defaultStrategy: string, manager: InferenceManager)
      requires manager.Valid()
      ensures Valid() && controls == map[] && this.manager == manager
      ensures this.behaviorInference == behaviorInference && this.defaultStrategy == defaultStrategy
    {
      this.behaviorInference, this.defaultStrategy, this.manager := behaviorInference, defaultStrategy, manager;
      controls := map[];
    }

    /** A camera leaves: its entry and its orchestrator go. */
    method RemoveCamera(camera: string)
      requires Valid()
      modifies this, manager
      ensures Valid()
      ensures controls == old(controls) - {camera}
      ensures manager.orchestrators == old(manager.orchestrators) - {camera}
    {
      controls := controls - {camera};
      manager.RemoveCamera(camera);
    }

    /** What the sync does for one active, listed camera. */
    method Apply(camera: string, record: CameraRecord)
      requires Valid()
      modifies this, manager
      ensures Valid()
      ensures controls == SettledControls(old(controls), camera, record, defaultStrategy)
      ensures manager.orchestrators
        == SettledRunning(old(controls), old(manager.orchestrators), camera, record, defaultStrategy)
    {
      var enabled := EnabledOf(record);
      var strategy := StrategyOf(record, defaultStrategy);
      if !enabled {
        if camera in controls {
          manager.RemoveCamera(camera);
          controls := controls - {camera};
        }
        return;
      }
      if camera !in controls {
        manager.ConfigureStream(camera, Some(true), Some(strategy));
        controls := controls[camera := (true, strategy)];
        return;
      }
      if controls[camera].1 == strategy {
        return;
      }
      manager.ConfigureStream(camera, None, Some(strategy));
      controls := controls[camera := (true, strategy)];
    }

    /** `_sync_inference_controls`: afterwards the table is exactly what is wanted; what is wanted
        runs, and of the rest only what the sync turned off has stopped. With behaviour inference
        off, everything in the table stops. */
    method Sync(records: seq<CameraRecord>, active: set<string>)
      requires Valid()
      modifies this, manager
      ensures Valid()
      ensures behaviorInference ==>
        && controls == WantedControls(ById(records), active, defaultStrategy)
        && manager.orchestrators
           == RunningAfter(ById(records), active, defaultStrategy, old(controls), old(manager.orchestrators))
      ensures !behaviorInference ==>
        controls == map[] && manager.orchestrators == old(manager.orchestrators) - old(controls).Keys
    {
      if !behaviorInference {
        StopAll();
        return;
      }
      hide TableProgress, RunProgress, WantedControls, RunningAfter;
      var byId := ById(records);
      var listed := set c | c in byId && c in active;
      DropUnlisted(listed);
      ApplyListed(byId, listed);
      TableProgressEnds(controls, byId, active, defaultStrategy, old(controls));
      RunProgressEnds(manager.orchestrators, byId, active, defaultStrategy, old(controls), old(manager.orchestrators));
    }

    /** Records are a dictionary; the order it is walked in does not matter. */
    method ApplyListed(byId: map<string, CameraRecord>, listed: set<string>)
      requires Valid() && listed <= byId.Keys
      modifies this, manager
      ensures Valid()
      ensures TableProgress(controls, byId, listed, defaultStrategy, old(controls))
      ensures RunProgress(manager.orchestrators, byId, listed, defaultStrategy, old(controls),
        old(manager.orchestrators))
    {
      hide TableProgress, RunProgress, SettledControls, SettledRunning, Tracks;
      var todo := listed;
      ProgressStarts(byId, defaultStrategy, controls, manager.orchestrators);
      assert listed - todo == {};
      while todo != {}
        invariant todo <= listed
        invariant Valid()
        invariant TableProgress(controls, byId, listed - todo, defaultStrategy, old(controls))
        invariant RunProgress(manager.orchestrators, byId, listed - todo, defaultStrategy,
                              old(controls), old(manager.orchestrators))
        decreases todo
      {
        var c :| c in todo;
        assert listed - (todo - {c}) == (listed - todo) + {c};
        TableProgressStep(controls, byId, listed - todo, c, defaultStrategy, old(controls));
        RunProgressStep(controls, manager.orchestrators, byId, listed - todo, c, defaultStrategy,
                        old(controls), old(manager.orchestrators));
        todo := todo - {c};
        Apply(c, byId[c]);
      }
      assert listed - todo == listed;
    }

    method StopAll()
      requires Valid()
      modifies this, manager
      ensures Valid() && controls == map[]
      ensures manager.orchestrators == old(manager.orchestrators) - old(controls).Keys
    {
      ghost var all := controls.Keys;
      while controls.Keys != {}
        invariant Valid() && controls.Keys <= all
        invariant manager.orchestrators == old(manager.orchestrators) - (all - controls.Keys)
        decreases controls.Keys
      {
        var c :| c in controls;
        RemoveCamera(c);
      }
    }

    method DropUnlisted(listed: set<string>)
      requires Valid()
      modifies this`controls
      ensures Valid() && controls == map c | c in old(controls) && c in listed :: old(controls)[c]
    {
      var todo := controls.Keys;
      while todo != {}
        invariant Valid() && todo <= controls.Keys
        invariant controls == map c | c in old(controls) && (c in todo || c in listed) :: old(controls)[c]
        decreases todo
      {
        var c :| c in todo;
        todo := todo - {c};
        if c !in listed {
          controls := controls - {c};
        }
      }
    }
  }
}
