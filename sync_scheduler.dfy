/** The stateful side of the folder-sync feature: the settings store, the
    app-wide sync timer and `SyncViewModel`, whose methods update the job
    list, the history log, the status text and the last-sync time in place.
    The folder a job names is an input (`FolderListing`); `world` says how
    each job's listing turns out on a tick. */
module SyncScheduler {
  import opened Strings
  import opened SyncModel

  /** `UserDefaults.standard` under the keys "SyncConfigs", "SyncHistory"
      and "LastSyncTime", as decoded values. */
  class Settings {
    var configData: Stored<seq<SyncConfig>>
    var historyData: Stored<seq<SyncHistory>>
    var lastSyncTime: Stored<Instant>

    constructor (configData: Stored<seq<SyncConfig>>, historyData: Stored<seq<SyncHistory>>, lastSyncTime: Stored<Instant>)
      ensures this.configData == configData && this.historyData == historyData && this.lastSyncTime == lastSyncTime
    {
      this.configData := configData;
      this.historyData := historyData;
      this.lastSyncTime := lastSyncTime;
    }
  }

  /** The static `syncTimer`: whether a repeating timer exists and which view
      model its closure captured. `created` counts the timers ever made. */
  class SyncTimerSlot {
    var running: bool
    var owner: SyncViewModel?
    ghost var created: nat

    /** At most one timer is ever created, and it exists from then on. */
    ghost predicate Valid()
      reads this
    {
      (running <==> created == 1) && created <= 1 && (running ==> owner != null)
    }

    /** The slot at launch: no timer. */
    constructor ()
      ensures Valid() && !running && owner == null && created == 0
    {
      running := false;
      owner := null;
      created := 0;
    }

    /** One firing of the timer: `checkScheduledSync` on the captured view
      model. */
    method Fire(hour: int, minute: int, world: SyncConfig -> FolderListing, startText: string, now: Instant)
      returns (ran: seq<SyncConfig>, puts: seq<PutRequest>)
      requires Valid() && running && owner != null && owner.Valid()
      modifies owner`syncStatus, owner`syncHistory, owner`lastSyncDate, owner.store`historyData, owner.store`lastSyncTime
      ensures ran == (if owner.isBackgroundSyncEnabled then Due(owner.configs, hour, minute) else [])
      ensures owner.syncHistory == AddAll(old(owner.syncHistory), RunsOf(ran, world, startText, now))
      ensures puts == AllPuts(ran, world)
    {
      ran, puts := owner.CheckScheduledSync(hour, minute, world, startText, now);
    }
  }

  /** The `for config in savedConfigs` loop of `loadConfigsFromUserDefaults`. */
  method ValidConfigs(saved: seq<SyncConfig>) returns (valid: seq<SyncConfig>)
    ensures valid == FilterValid(saved)
    ensures forall k :: 0 <= k < |valid| ==> ValidConfig(valid[k])
  {
    valid := [];
    for i := 0 to |saved|
      invariant valid == FilterValid(saved[..i])
    {
      assert saved[..i + 1][..i] == saved[..i];
      if saved[i].localFolderPath != "" && saved[i].bucketName != "" {
        valid := valid + [saved[i]];
      }
    }
    assert saved[..|saved|] == saved;
    forall k | 0 <= k < |valid| ensures ValidConfig(valid[k]) {
      KeepMembers(saved, IsValid, valid[k]);
    }
  }

  /** The `for file in files` loop of `syncFolder`: one detail line per
      regular file, a request for each file whose data was read, and the
      two counters. */
  method UploadFiles(config: SyncConfig, entries: seq<FolderEntry>)
    returns (details: seq<string>, successCount: nat, failureCount: nat, puts: seq<PutRequest>)
    ensures details == UploadLines(entries) && puts == PutsFor(config, entries)
    ensures successCount == SuccessCount(entries) && failureCount == FailureCount(entries)
    ensures successCount + failureCount == |RegularFiles(entries)| == |details|
    ensures successCount <= |puts| == |ReadFiles(entries)| <= |RegularFiles(entries)|
  {
    details, successCount, failureCount, puts := [], 0, 0, [];
    for i := 0 to |entries|
      invariant details == UploadLines(entries[..i]) && puts == PutsFor(config, entries[..i])
      invariant successCount == SuccessCount(entries[..i]) && failureCount == FailureCount(entries[..i])
    {
      assert entries[..i + 1][..i] == entries[..i];
      var e := entries[i];
      if !e.skipped {
        match e.upload
        case Uploaded(size) =>
          var key := if config.prefix == "" then e.name else config.prefix + "/" + e.name;
          puts := puts + [PutRequest(config.bucketName, key)];
          details := details + [UploadedMark + e.name + " (" + size + ")"];
          successCount := successCount + 1;
        case ReadFailed(msg) =>
          details := details + [FailedMark + e.name + " - " + msg];
          failureCount := failureCount + 1;
        case PutFailed(msg) =>
          var key := if config.prefix == "" then e.name else config.prefix + "/" + e.name;
          puts := puts + [PutRequest(config.bucketName, key)];
          details := details + [FailedMark + e.name + " - " + msg];
          failureCount := failureCount + 1;
      }
    }
    assert entries[..|entries|] == entries;
    EveryFileAccountedFor(config, entries);
  }

  class SyncViewModel {
    var configs: seq<SyncConfig>
    var newConfig: SyncConfig
    var selectedBucket: string
    var syncStatus: string
    var lastSyncDate: Option<Instant>
    var isBackgroundSyncEnabled: bool
    var syncHistory: seq<SyncHistory>
    var accessKey: string
    var secretKey: string
    var region: string
    /** The shared settings store. */
    const store: Settings
    /** The shared static timer. */
    const timer: SyncTimerSlot

    /** Every job in the list passes the load check: loading filters, the
      seed and `saveConfig` only add such jobs, and nothing else adds any. */
    ghost predicate Valid()
      reads this
    {
      forall k :: 0 <= k < |configs| ==> ValidConfig(configs[k])
    }

    /** `init`: load the jobs (seeding the example job, unsaved, when none
      loads), the last-sync time and the log, take the credentials and make
      sure the app-wide timer runs. `newId`/`clock` stand for the blank
      form job's fresh UUID and `Date()`, `seedId` for the example job's.
      The loads are done before the object is complete: the job list goes
      through the same loop as `LoadConfigsFromUserDefaults`, and the log
      and the time are read as `LoadSyncHistory` reads them. */
    constructor (accessKey: string, secretKey: string, region: string, store: Settings, timer: SyncTimerSlot,
                 homeDir: string, seedId: Uuid, newId: Uuid, clock: TimeOfDay)
      requires timer.Valid()
      modifies timer
      ensures Valid() && timer.Valid()
      ensures this.store == store && this.timer == timer
      ensures var loaded := Loaded(store.configData, []);
        configs == if loaded == [] then [SeedConfig(homeDir, seedId, clock)] else loaded
      ensures lastSyncDate == (if store.lastSyncTime.Stored? then Some(store.lastSyncTime.value) else None)
      ensures syncHistory == (if store.historyData.Stored? then store.historyData.value else [])
      ensures newConfig == BlankConfig(newId, clock) && selectedBucket == "" && syncStatus == ""
      ensures isBackgroundSyncEnabled
      ensures this.accessKey == accessKey && this.secretKey == secretKey && this.region == region
      ensures unchanged(store)
      ensures old(timer.running) ==> unchanged(timer)
      ensures !old(timer.running) ==> timer.running && timer.owner == this
    {
      var loaded := [];
      match store.configData {
        case Stored(saved) => loaded := ValidConfigs(saved);
        case _ =>
      }
      this.configs := if loaded == [] then [SeedConfig(homeDir, seedId, clock)] else loaded;
      this.newConfig := BlankConfig(newId, clock);
      this.selectedBucket := "";
      this.syncStatus := "";
      this.lastSyncDate := if store.lastSyncTime.Stored? then Some(store.lastSyncTime.value) else None;
      this.isBackgroundSyncEnabled := true;
      this.syncHistory := if store.historyData.Stored? then store.historyData.value else [];
      this.accessKey := accessKey;
      this.secretKey := secretKey;
      this.region := region;
      this.store := store;
      this.timer := timer;
      new;
      var _ := StartGlobalSyncTimer(timer, this);
    }

    method UpdateCredentials(accessKey: string, secretKey: string, region: string)
      modifies this`accessKey, this`secretKey, this`region
      ensures this.accessKey == accessKey && this.secretKey == secretKey && this.region == region
    {
      this.accessKey := accessKey;
      this.secretKey := secretKey;
      this.region := region;
    }

    /** Creates the app-wide timer unless one exists; `started` says whether
      this call made it (and so scheduled the immediate first check). A
      second call changes nothing, and the timer keeps the view model it
      was first given. */
    static method StartGlobalSyncTimer(slot: SyncTimerSlot, viewModel: SyncViewModel) returns (started: bool)
      requires slot.Valid()
      modifies slot
      ensures slot.Valid() && slot.running
      ensures started <==> !old(slot.running)
      ensures old(slot.running) ==> unchanged(slot)
      ensures !old(slot.running) ==> slot.owner == viewModel && slot.created == 1
    {
      if slot.running {
        return false;
      }
      slot.running := true;
      slot.owner := viewModel;
      slot.created := slot.created + 1;
      started := true;
    }

    /** `startSyncTimer` delegates to the app-wide timer. */
    method StartSyncTimer() returns (started: bool)
      requires timer.Valid()
      modifies timer
      ensures timer.Valid() && timer.running
      ensures started <==> !old(timer.running)
      ensures old(timer.running) ==> unchanged(timer)
      ensures !old(timer.running) ==> timer.owner == this
    {
      started := StartGlobalSyncTimer(timer, this);
    }

    /** `stopSyncTimer` only logs: the timer is never cleared. */
    method StopSyncTimer()
      ensures unchanged(timer)
    {
    }

    // -------------------------------------------------------------------
    // The job store
    // -------------------------------------------------------------------

    method SaveConfigsToUserDefaults()
      modifies store`configData
      ensures store.configData == Stored(configs)
    {
      store.configData := Stored(configs);
    }

    /** Keeps the valid decoded jobs in order; leaves the list alone when
      nothing is stored or the data does not decode. */
    method LoadConfigsFromUserDefaults()
      requires Valid()
      modifies this`configs
      ensures Valid()
      ensures configs == Loaded(store.configData, old(configs))
    {
      match store.configData {
        case Stored(saved) =>
          var valid := ValidConfigs(saved);
          configs := valid;
        case _ =>
      }
    }

    /** Adds the form's job with the chosen bucket, saves, and resets the
      form to a blank job (`freshId`, `clock`); without a folder or a bucket
      nothing happens. */
    method SaveConfig(freshId: Uuid, clock: TimeOfDay)
      requires Valid()
      modifies this`configs, this`newConfig, this`selectedBucket, store`configData
      ensures Valid()
      ensures old(newConfig.localFolderPath) != "" && old(selectedBucket) != "" ==>
        configs == old(configs) + [old(newConfig).(bucketName := old(selectedBucket))]
        && store.configData == Stored(configs)
        && newConfig == BlankConfig(freshId, clock) && selectedBucket == ""
      ensures old(newConfig.localFolderPath) == "" || old(selectedBucket) == "" ==>
        unchanged(this) && unchanged(store)
    {
      if newConfig.localFolderPath != "" && selectedBucket != "" {
        newConfig := newConfig.(bucketName := selectedBucket);
        configs := configs + [newConfig];
        SaveConfigsToUserDefaults();
        newConfig := BlankConfig(freshId, clock);
        selectedBucket := "";
      }
    }

    /** Flips the first job with the given job's id and saves; an unknown id
      changes nothing and saves nothing. */
    method ToggleConfig(config: SyncConfig)
      requires Valid()
      modifies this`configs, store`configData
      ensures Valid()
      ensures configs == ToggleFirst(old(configs), config.id)
      ensures FirstIndex(old(configs), config.id).Some? ==> store.configData == Stored(configs)
      ensures FirstIndex(old(configs), config.id).None? ==> unchanged(store)
    {
      ToggleKeepsValid(configs, config.id);
      match FirstIndex(configs, config.id) {
        case Some(index) =>
          configs := configs[index := configs[index].(isEnabled := !configs[index].isEnabled)];
          SaveConfigsToUserDefaults();
        case None =>
      }
    }

    /** Drops every job with the given job's id, then saves. */
    method RemoveConfig(config: SyncConfig)
      requires Valid()
      modifies this`configs, store`configData
      ensures Valid()
      ensures configs == RemoveId(old(configs), config.id)
      ensures store.configData == Stored(configs)
    {
      RemoveIdKeepsValid(configs, config.id);
      configs := RemoveId(configs, config.id);
      SaveConfigsToUserDefaults();
    }

    // -------------------------------------------------------------------
    // The history log and the last-sync time
    // -------------------------------------------------------------------

    method SaveSyncHistory()
      modifies store`historyData
      ensures store.historyData == Stored(syncHistory)
    {
      store.historyData := Stored(syncHistory);
    }

    method LoadSyncHistory()
      modifies this`syncHistory
      ensures syncHistory == if store.historyData.Stored? then store.historyData.value else old(syncHistory)
    {
      if store.historyData.Stored? {
        syncHistory := store.historyData.value;
      }
    }

    /** Inserts at the head, trims to five entries and saves. */
    method AddSyncHistory(entry: SyncHistory)
      modifies this`syncHistory, store`historyData
      ensures syncHistory == AddHistory(old(syncHistory), entry)
      ensures |syncHistory| <= MaxHistoryItems && syncHistory[0] == entry
      ensures store.historyData == Stored(syncHistory)
    {
      syncHistory := [entry] + syncHistory;
      if |syncHistory| > MaxHistoryItems {
        syncHistory := syncHistory[..MaxHistoryItems];
      }
      SaveSyncHistory();
    }

    method UpdateLastSyncTime(now: Instant)
      modifies this`lastSyncDate, store`lastSyncTime
      ensures lastSyncDate == Some(now) && store.lastSyncTime == Stored(now)
    {
      lastSyncDate := Some(now);
      store.lastSyncTime := Stored(now);
    }

    // -------------------------------------------------------------------
    // Running jobs
    // -------------------------------------------------------------------

    /** One run: upload the listing's regular files, leave the summary or
      the error as the status and add exactly one record to the log.
      `startText` is the formatted start time, `now` the record's time. */
    method SyncFolder(config: SyncConfig, listing: FolderListing, startText: string, now: Instant)
      returns (puts: seq<PutRequest>)
      modifies this`syncStatus, this`syncHistory, store`historyData
      ensures syncStatus == FinalStatus(listing)
      ensures syncHistory == AddHistory(old(syncHistory), RunRecord(config, listing, startText, now))
      ensures store.historyData == Stored(syncHistory)
      ensures puts == if listing.Listed? then PutsFor(config, listing.entries) else []
    {
      var syncDetails := [StartLine(startText)];
      syncStatus := "正在同步: " + config.localFolderPath + " 到 " + config.bucketName + "/" + config.prefix;
      match listing {
        case Listed(files) =>
          syncDetails := syncDetails + [FoundLine(|files|)];
          var lines, successCount, failureCount, requests := UploadFiles(config, files);
          syncDetails := syncDetails + lines;
          var summaryText := SummaryLine(successCount, failureCount);
          syncStatus := summaryText;
          syncDetails := syncDetails + [summaryText];
          assert syncDetails == [StartLine(startText), FoundLine(|files|)] + UploadLines(files) + [summaryText];
          assert CreateSuccess(config, syncDetails, now) == RunRecord(config, listing, startText, now);
          AddSyncHistory(CreateSuccess(config, syncDetails, now));
          puts := requests;
        case ListingFailed(message) =>
          var errorMessage := FailureLine(message);
          syncStatus := errorMessage;
          syncDetails := syncDetails + [errorMessage];
          assert CreateFailure(config, message, syncDetails, now) == RunRecord(config, listing, startText, now);
          AddSyncHistory(CreateFailure(config, message, syncDetails, now));
          puts := [];
      }
    }

    /** A run started from the list, followed by the last-sync update. */
    method ManualSync(config: SyncConfig, listing: FolderListing, startText: string, now: Instant)
      returns (puts: seq<PutRequest>)
      modifies this`syncStatus, this`syncHistory, this`lastSyncDate, store`historyData, store`lastSyncTime
      ensures syncStatus == FinalStatus(listing)
      ensures syncHistory == AddHistory(old(syncHistory), RunRecord(config, listing, startText, now))
      ensures store.historyData == Stored(syncHistory)
      ensures lastSyncDate == Some(now) && store.lastSyncTime == Stored(now)
      ensures puts == if listing.Listed? then PutsFor(config, listing.entries) else []
    {
      puts := SyncFolder(config, listing, startText, now);
      UpdateLastSyncTime(now);
    }

    /** The body of the tick's loop for one job: when the job is enabled and
      its time matches, one run followed by the last-sync update; otherwise
      nothing. */
    method RunIfDue(config: SyncConfig, hour: int, minute: int, listing: FolderListing, startText: string, now: Instant)
      returns (due: bool, puts: seq<PutRequest>)
      modifies this`syncStatus, this`syncHistory, this`lastSyncDate, store`historyData, store`lastSyncTime
      ensures due == (config.isEnabled && TimeMatches(hour, minute, config.syncTime))
      ensures due ==>
        syncStatus == FinalStatus(listing)
        && syncHistory == AddHistory(old(syncHistory), RunRecord(config, listing, startText, now))
        && lastSyncDate == Some(now) && store.lastSyncTime == Stored(now)
        && store.historyData == Stored(syncHistory)
        && puts == (if listing.Listed? then PutsFor(config, listing.entries) else [])
      ensures !due ==> unchanged(this) && unchanged(store) && puts == []
    {
      due := config.isEnabled && hour == config.syncTime.hour && Abs(minute - config.syncTime.minute) <= 5;
      puts := [];
      if due {
        puts := SyncFolder(config, listing, startText, now);
        UpdateLastSyncTime(now);
      }
    }

    /** One tick: with automatic sync on, run every enabled job whose time
      matches the clock's hour and minute, in list order, updating the
      last-sync time after each; with it off, do nothing. `ran` lists the
      jobs run. */
    method CheckScheduledSync(hour: int, minute: int, world: SyncConfig -> FolderListing, startText: string, now: Instant)
      returns (ran: seq<SyncConfig>, puts: seq<PutRequest>)
      modifies this`syncStatus, this`syncHistory, this`lastSyncDate, store`historyData, store`lastSyncTime
      ensures ran == if isBackgroundSyncEnabled then Due(configs, hour, minute) else []
      ensures syncHistory == AddAll(old(syncHistory), RunsOf(ran, world, startText, now))
      ensures puts == AllPuts(ran, world)
      ensures ran == [] ==> unchanged(this) && unchanged(store)
      ensures ran != [] ==>
        syncStatus == FinalStatus(world(ran[|ran| - 1]))
        && lastSyncDate == Some(now) && store.lastSyncTime == Stored(now)
        && store.historyData == Stored(syncHistory)
    {
      ran, puts := [], [];
      if !isBackgroundSyncEnabled {
        return;
      }
      for i := 0 to |configs|
        invariant ran == Due(configs[..i], hour, minute)
        invariant syncHistory == AddAll(old(syncHistory), RunsOf(ran, world, startText, now))
        invariant puts == AllPuts(ran, world)
        invariant ran == [] ==> unchanged(this) && unchanged(store)
        invariant ran != [] ==>
          syncStatus == FinalStatus(world(ran[|ran| - 1]))
          && lastSyncDate == Some(now) && store.lastSyncTime == Stored(now)
          && store.historyData == Stored(syncHistory)
      {
        var config := configs[i];
        DueStep(configs, i, hour, minute);
        TickStep(old(syncHistory), ran, config, world, startText, now);
        var due, p := RunIfDue(config, hour, minute, world(config), startText, now);
        if due {
          ran := ran + [config];
          puts := puts + p;
        }
      }
      assert configs[..|configs|] == configs;
    }
  }
}
