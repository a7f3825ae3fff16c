/** The value side of the folder-sync feature: sync jobs (`SyncConfig`), run
    records (`SyncHistory`), the time-match rule of `checkScheduledSync`, the
    remote key of `syncFolder`, the result one run records, and the bounded
    history log. Clock readings, UUIDs and formatted dates are inputs. */
module SyncModel {
  import opened Strings

  type Uuid = nat
  type Instant = int

  /** The hour and minute the calendar reads off a `Date`; the day is
      ignored by the scheduler. */
  datatype TimeOfDay = TimeOfDay(hour: int, minute: int)

  datatype SyncConfig = SyncConfig(
    id: Uuid,
    localFolderPath: string,
    bucketName: string,
    prefix: string,
    syncTime: TimeOfDay,
    isEnabled: bool)

  /** The check `loadConfigsFromUserDefaults` applies to each decoded job. */
  predicate ValidConfig(c: SyncConfig) {
    c.localFolderPath != "" && c.bucketName != ""
  }

  /** A run record. The record's own UUID exists only for the list view and
      is not modelled. */
  datatype SyncHistory = SyncHistory(
    timestamp: Instant,
    configId: Uuid,
    localPath: string,
    targetBucket: string,
    prefix: string,
    status: string,
    details: seq<string>,
    success: bool)

  const SuccessStatus: string := "成功"
  const FailureMark: string := "失敗"

  function CreateSuccess(config: SyncConfig, details: seq<string>, now: Instant): SyncHistory {
    SyncHistory(now, config.id, config.localFolderPath, config.bucketName, config.prefix,
                SuccessStatus, details, true)
  }

  function CreateFailure(config: SyncConfig, error: string, details: seq<string>, now: Instant): SyncHistory {
    SyncHistory(now, config.id, config.localFolderPath, config.bucketName, config.prefix,
                FailureMark + ": " + error, details, false)
  }

  /** Either constructor copies the job's identity into the record, and the
      status text carries the word for failure exactly when the run failed
      (the history view colours a record red on that word). */
  lemma StatusShowsOutcome(config: SyncConfig, error: string, details: seq<string>, now: Instant)
    ensures var ok := CreateSuccess(config, details, now);
      ok.success && !Contains(ok.status, FailureMark)
      && ok.configId == config.id && ok.targetBucket == config.bucketName && ok.details == details
    ensures var bad := CreateFailure(config, error, details, now);
      !bad.success && Contains(bad.status, FailureMark) && StartsWith(bad.status, FailureMark + ": ")
      && bad.configId == config.id && bad.targetBucket == config.bucketName && bad.details == details
  {
    var bad := CreateFailure(config, error, details, now);
    assert bad.status[..|FailureMark|] == FailureMark;
    assert bad.status[..|FailureMark + ": "|] == FailureMark + ": ";
    var s := SuccessStatus;
    assert s[..|FailureMark|][0] != FailureMark[0];
    ShorterNotContained(s[1..], FailureMark);
  }

  // ---------------------------------------------------------------------
  // The time-match rule of checkScheduledSync
  // ---------------------------------------------------------------------

  const ToleranceMinutes: int := 5

  function Abs(x: int): int { if x < 0 then -x else x }

  /** The job's time matches the clock: same hour and at most five minutes
      apart within that hour. */
  predicate TimeMatches(currentHour: int, currentMinute: int, t: TimeOfDay) {
    currentHour == t.hour && Abs(currentMinute - t.minute) <= ToleranceMinutes
  }

  function MinuteOfDay(hour: int, minute: int): int { hour * 60 + minute }

  /** A match is always within five minutes of the job's time of day. */
  lemma MatchWithinWindow(currentHour: int, currentMinute: int, t: TimeOfDay)
    requires TimeMatches(currentHour, currentMinute, t)
    ensures Abs(MinuteOfDay(currentHour, currentMinute) - MinuteOfDay(t.hour, t.minute)) <= ToleranceMinutes
  {
  }

  /** The converse fails across an hour boundary: 11:02 is four minutes after
      10:58, yet a job set for 10:58 does not fire at 11:02. */
  lemma HourBoundaryIsNotCrossed()
    ensures var t := TimeOfDay(10, 58);
      Abs(MinuteOfDay(11, 2) - MinuteOfDay(t.hour, t.minute)) == 4 && !TimeMatches(11, 2, t)
  {
  }

  /** Nothing records that a job already fired: the rule holds on every
      minute from five before to five after the job's minute, so a
      once-a-minute tick can run the same job eleven times. */
  lemma FiresOnEveryTickOfWindow(t: TimeOfDay, k: int)
    requires 0 <= k <= 2 * ToleranceMinutes
    ensures TimeMatches(t.hour, t.minute - ToleranceMinutes + k, t)
  {
  }

  /** The jobs one tick runs, in job-store order. */
  function Due(configs: seq<SyncConfig>, hour: int, minute: int): seq<SyncConfig>
    decreases |configs|
  {
    if configs == [] then []
    else
      var last := configs[|configs| - 1];
      Due(configs[..|configs| - 1], hour, minute)
        + (if last.isEnabled && TimeMatches(hour, minute, last.syncTime) then [last] else [])
  }

  /** Looking at one more job of the list adds it to the due jobs exactly
      when it is enabled and its time matches. */
  lemma DueStep(configs: seq<SyncConfig>, i: nat, hour: int, minute: int)
    requires i < |configs|
    ensures Due(configs[..i + 1], hour, minute)
      == Due(configs[..i], hour, minute)
         + (if configs[i].isEnabled && TimeMatches(hour, minute, configs[i].syncTime) then [configs[i]] else [])
  {
    assert configs[..i + 1][..i] == configs[..i];
  }

  /** A job is run by a tick exactly when it is enabled and its time matches. */
  lemma {:induction false} DueIff(configs: seq<SyncConfig>, hour: int, minute: int, c: SyncConfig)
    ensures c in Due(configs, hour, minute) <==> c in configs && c.isEnabled && TimeMatches(hour, minute, c.syncTime)
    decreases |configs|
  {
    if configs != [] {
      var init := configs[..|configs| - 1];
      DueIff(init, hour, minute, c);
      assert configs == init + [configs[|configs| - 1]];
    }
  }

  // ---------------------------------------------------------------------
  // One run of syncFolder
  // ---------------------------------------------------------------------

  /** How one regular file ended: read and uploaded, with the byte count
      as the text `ByteCountFormatter` gives for it; its data could not be
      read, so no request was built; or the request failed. */
  datatype UploadResult = Uploaded(sizeText: string) | ReadFailed(message: string) | PutFailed(message: string)

  /** One entry of the job's folder listing. `skipped` holds when the
      `fileExists(atPath:isDirectory:) && !isDir` test fails: the entry is
      a directory, or its path no longer resolves (a dangling link, a file
      removed after the listing). */
  datatype FolderEntry = FolderEntry(name: string, skipped: bool, upload: UploadResult)

  /** How building the client and listing the folder ended. */
  datatype FolderListing = Listed(entries: seq<FolderEntry>) | ListingFailed(message: string)

  datatype PutRequest = PutRequest(bucket: string, key: string)

  /** The remote key of a file: the bare name under an empty prefix, else
      prefix, slash, name, with no normalisation of the prefix. */
  function ObjectKey(prefix: string, file: string): string {
    if prefix == "" then file else prefix + "/" + file
  }

  /** Reads the file name back out of a key built under `prefix`. */
  function FileOfKey(prefix: string, key: string): string {
    if prefix == "" then key
    else if |key| >= |prefix| + 1 then key[|prefix| + 1..]
    else key
  }

  /** Every key starts with its prefix and a slash (for a non-empty prefix)
      and gives back the file name it was built from. */
  lemma ObjectKeyRoundTrip(prefix: string, file: string)
    ensures prefix != "" ==> StartsWith(ObjectKey(prefix, file), prefix + "/")
    ensures FileOfKey(prefix, ObjectKey(prefix, file)) == file
  {
    if prefix != "" {
      var k := ObjectKey(prefix, file);
      assert k[..|prefix| + 1] == prefix + "/";
      assert k[|prefix| + 1..] == file;
    }
  }

  /** A prefix that already ends in a slash, such as the seeded
      "example-folder/", gives a key with a doubled slash. */
  lemma TrailingSlashPrefixDoublesSlash(prefix: string, file: string)
    requires prefix != "" && prefix[|prefix| - 1] == '/'
    ensures Contains(ObjectKey(prefix, file), "//")
  {
    var k := ObjectKey(prefix, file);
    assert k[|prefix| - 1..|prefix| + 1] == "//";
    ContainsAt(k, "//", |prefix| - 1);
  }

  /** The entries `syncFolder` tries: those that pass the existence and
      not-a-directory test. */
  function RegularFiles(entries: seq<FolderEntry>): seq<FolderEntry>
    decreases |entries|
  {
    if entries == [] then []
    else
      var last := entries[|entries| - 1];
      RegularFiles(entries[..|entries| - 1]) + (if last.skipped then [] else [last])
  }

  /** A tried entry whose data was read, so that a request was sent. */
  predicate WasRead(e: FolderEntry) {
    !e.skipped && !e.upload.ReadFailed?
  }

  /** The entries whose data was read, in listing order. */
  function ReadFiles(entries: seq<FolderEntry>): seq<FolderEntry>
    decreases |entries|
  {
    if entries == [] then []
    else
      var last := entries[|entries| - 1];
      ReadFiles(entries[..|entries| - 1]) + (if WasRead(last) then [last] else [])
  }

  const UploadedMark: string := "✓ 上傳成功: "
  const FailedMark: string := "✗ 上傳失敗: "

  /** The detail line of a tried file; both kinds of failure share one
      line, since one `catch` handles them. */
  function UploadLine(e: FolderEntry): string {
    match e.upload
    case Uploaded(size) => UploadedMark + e.name + " (" + size + ")"
    case ReadFailed(msg) => FailedMark + e.name + " - " + msg
    case PutFailed(msg) => FailedMark + e.name + " - " + msg
  }

  /** The per-file detail lines, one per regular file in listing order. */
  function UploadLines(entries: seq<FolderEntry>): seq<string>
    decreases |entries|
  {
    if entries == [] then []
    else
      var last := entries[|entries| - 1];
      UploadLines(entries[..|entries| - 1]) + (if last.skipped then [] else [UploadLine(last)])
  }

  function SuccessCount(entries: seq<FolderEntry>): nat
    decreases |entries|
  {
    if entries == [] then 0
    else
      var last := entries[|entries| - 1];
      SuccessCount(entries[..|entries| - 1]) + (if !last.skipped && last.upload.Uploaded? then 1 else 0)
  }

  function FailureCount(entries: seq<FolderEntry>): nat
    decreases |entries|
  {
    if entries == [] then 0
    else
      var last := entries[|entries| - 1];
      FailureCount(entries[..|entries| - 1]) + (if !last.skipped && !last.upload.Uploaded? then 1 else 0)
  }

  /** The `putObject` requests of a run, in listing order. */
  function PutsFor(config: SyncConfig, entries: seq<FolderEntry>): seq<PutRequest>
    decreases |entries|
  {
    if entries == [] then []
    else
      var last := entries[|entries| - 1];
      PutsFor(config, entries[..|entries| - 1])
        + (if WasRead(last) then [PutRequest(config.bucketName, ObjectKey(config.prefix, last.name))] else [])
  }

  /** Every regular file is tried exactly once: one detail line per file,
      each counted as a success or a failure, and a failure does not end
      the pass. Line k belongs to regular file k. Requests go out only for
      the files that were read, request k for read file k, and every
      success is among them. */
  lemma {:induction false} EveryFileAccountedFor(config: SyncConfig, entries: seq<FolderEntry>)
    ensures var files := RegularFiles(entries);
      && SuccessCount(entries) + FailureCount(entries) == |files|
      && |UploadLines(entries)| == |files|
      && (forall k :: 0 <= k < |files| ==> !files[k].skipped && files[k] in entries)
      && (forall k :: 0 <= k < |files| ==> UploadLines(entries)[k] == UploadLine(files[k]))
    ensures var read := ReadFiles(entries);
      && |PutsFor(config, entries)| == |read|
      && SuccessCount(entries) <= |read| <= |RegularFiles(entries)|
      && (forall k :: 0 <= k < |read| ==> WasRead(read[k]) && read[k] in entries)
      && (forall k :: 0 <= k < |read| ==>
            PutsFor(config, entries)[k] == PutRequest(config.bucketName, ObjectKey(config.prefix, read[k].name)))
    decreases |entries|
  {
    if entries != [] {
      var init := entries[..|entries| - 1];
      EveryFileAccountedFor(config, init);
      assert entries == init + [entries[|entries| - 1]];
    }
  }

  /** A file whose data cannot be read gets a failure line and a failure
      count but no request. */
  lemma ReadFailureSendsNothing(config: SyncConfig, name: string, message: string)
    ensures var e := FolderEntry(name, false, ReadFailed(message));
      PutsFor(config, [e]) == [] && FailureCount([e]) == 1 && SuccessCount([e]) == 0
      && UploadLines([e]) == [FailedMark + name + " - " + message]
  {
    var e := FolderEntry(name, false, ReadFailed(message));
    assert [e][..0] == [];
  }

  /** A skipped entry is never tried, uploaded or counted. */
  lemma {:induction false} DirectoriesSkipped(config: SyncConfig, entries: seq<FolderEntry>)
    ensures (forall k :: 0 <= k < |entries| ==> entries[k].skipped) ==>
      RegularFiles(entries) == [] && UploadLines(entries) == [] && PutsFor(config, entries) == []
      && SuccessCount(entries) == 0 && FailureCount(entries) == 0
    decreases |entries|
  {
    if entries != [] {
      DirectoriesSkipped(config, entries[..|entries| - 1]);
    }
  }

  /** A success line starts with its mark and a failure line of either kind
      with the other. */
  lemma UploadLineMarks(e: FolderEntry)
    ensures e.upload.Uploaded? ==> StartsWith(UploadLine(e), UploadedMark)
    ensures !e.upload.Uploaded? ==> StartsWith(UploadLine(e), FailedMark)
    ensures !StartsWith(UploadedMark, FailedMark) && !StartsWith(FailedMark, UploadedMark)
  {
    var l := UploadLine(e);
    if e.upload.Uploaded? {
      assert l[..|UploadedMark|] == UploadedMark;
    } else {
      assert l[..|FailedMark|] == FailedMark;
    }
    assert UploadedMark[0] != FailedMark[0];
  }

  function StartLine(startText: string): string { "開始同步：" + startText }

  /** Counts every listed name, directories included. */
  function FoundLine(n: nat): string { "找到 " + NatToString(n) + " 個文件待同步" }

  function SummaryLine(succeeded: nat, failed: nat): string {
    "同步完成：成功 " + NatToString(succeeded) + " 個文件，失敗 " + NatToString(failed) + " 個文件"
  }

  function FailureLine(message: string): string { "同步失敗: " + message }

  /** The record one run of `syncFolder` adds; `startText` is the formatted
      start time and `now` the moment the record is created. */
  function RunRecord(config: SyncConfig, listing: FolderListing, startText: string, now: Instant): SyncHistory {
    match listing
    case Listed(entries) =>
      CreateSuccess(config,
        [StartLine(startText), FoundLine(|entries|)] + UploadLines(entries)
          + [SummaryLine(SuccessCount(entries), FailureCount(entries))],
        now)
    case ListingFailed(msg) =>
      CreateFailure(config, msg, [StartLine(startText), FailureLine(msg)], now)
  }

  /** The status text `syncFolder` leaves behind. */
  function FinalStatus(listing: FolderListing): string {
    match listing
    case Listed(entries) => SummaryLine(SuccessCount(entries), FailureCount(entries))
    case ListingFailed(msg) => FailureLine(msg)
  }

  /** A run that got its listing is recorded as a success, whatever its
      uploads did: start line, found line, one line per regular file and the
      summary. A run that failed before the loop is one failure record whose
      details are the start line and the error line only. */
  lemma RunRecordShape(config: SyncConfig, listing: FolderListing, startText: string, now: Instant)
    ensures var r := RunRecord(config, listing, startText, now);
      r.success == listing.Listed? && r.configId == config.id && r.timestamp == now
      && r.details[0] == StartLine(startText)
    ensures listing.Listed? ==> var r := RunRecord(config, listing, startText, now);
      var es := listing.entries;
      r.status == SuccessStatus
      && |r.details| == 3 + |RegularFiles(es)|
      && r.details[1] == FoundLine(|es|)
      && r.details[|r.details| - 1] == SummaryLine(SuccessCount(es), FailureCount(es))
      && SuccessCount(es) + FailureCount(es) == |RegularFiles(es)|
    ensures listing.ListingFailed? ==> var r := RunRecord(config, listing, startText, now);
      r.status == FailureMark + ": " + listing.message
      && r.details == [StartLine(startText), FailureLine(listing.message)]
  {
    if listing.Listed? {
      EveryFileAccountedFor(config, listing.entries);
    }
  }

  // ---------------------------------------------------------------------
  // The bounded history log (addSyncHistory)
  // ---------------------------------------------------------------------

  const MaxHistoryItems: nat := 5

  function Min(a: int, b: int): int { if a < b then a else b }

  /** Insert at the head, then keep the first five. */
  function AddHistory(history: seq<SyncHistory>, entry: SyncHistory): seq<SyncHistory> {
    var inserted := [entry] + history;
    if |inserted| > MaxHistoryItems then inserted[..MaxHistoryItems] else inserted
  }

  /** The new entry comes first, the log holds at most five entries, and the
      rest are the old log's first entries in their old order. */
  lemma AddHistoryShape(history: seq<SyncHistory>, entry: SyncHistory)
    ensures var r := AddHistory(history, entry);
      |r| == Min(|history| + 1, MaxHistoryItems) && |r| <= MaxHistoryItems
      && r[0] == entry
      && r[1..] == history[..Min(|history|, MaxHistoryItems - 1)]
  {
  }

  /** The log after a sequence of runs, oldest run first. */
  function AddAll(history: seq<SyncHistory>, runs: seq<SyncHistory>): seq<SyncHistory>
    decreases |runs|
  {
    if runs == [] then history
    else AddHistory(AddAll(history, runs[..|runs| - 1]), runs[|runs| - 1])
  }

  function Reversed<T>(s: seq<T>): (r: seq<T>)
    ensures |r| == |s|
    decreases |s|
  {
    if s == [] then [] else [s[|s| - 1]] + Reversed(s[..|s| - 1])
  }

  /** Reversal sends index k to index n-1-k. */
  lemma {:induction false} ReversedAt<T>(s: seq<T>, k: nat)
    requires k < |s|
    ensures Reversed(s)[k] == s[|s| - 1 - k]
    decreases |s|
  {
    if k > 0 {
      ReversedAt(s[..|s| - 1], k - 1);
    }
  }

  /** After at least one insertion the log is the newest five of all runs
      and earlier entries, newest first. */
  lemma {:induction false} AddAllKeepsNewest(history: seq<SyncHistory>, runs: seq<SyncHistory>)
    requires runs != []
    ensures AddAll(history, runs) == (Reversed(runs) + history)[..Min(|runs| + |history|, MaxHistoryItems)]
    decreases |runs|
  {
    var init, r := runs[..|runs| - 1], runs[|runs| - 1];
    if init == [] {
      assert Reversed(runs) == [r];
    } else {
      AddAllKeepsNewest(history, init);
      var x := Reversed(init) + history;
      var k := Min(|init| + |history|, MaxHistoryItems);
      assert Reversed(runs) + history == [r] + x;
      assert AddAll(history, runs) == AddHistory(x[..k], r);
      assert ([r] + x[..k])[..Min(k + 1, MaxHistoryItems)] == ([r] + x)[..Min(k + 1, MaxHistoryItems)];
    }
  }

  /** Seven runs into an empty log leave exactly the last five, newest
      first. */
  lemma SevenRunsKeepLastFive(runs: seq<SyncHistory>)
    requires |runs| == 7
    ensures AddAll([], runs) == [runs[6], runs[5], runs[4], runs[3], runs[2]]
  {
    AddAllKeepsNewest([], runs);
    var rev := Reversed(runs);
    assert rev[..5] == [runs[6], runs[5], runs[4], runs[3], runs[2]] by {
      var r1 := Reversed(runs[..6]);
      var r2 := Reversed(runs[..5]);
      var r3 := Reversed(runs[..4]);
      var r4 := Reversed(runs[..3]);
      assert runs[..6][..5] == runs[..5] && runs[..5][..4] == runs[..4] && runs[..4][..3] == runs[..3];
      assert rev == [runs[6]] + r1;
      assert r1 == [runs[5]] + r2;
      assert r2 == [runs[4]] + r3;
      assert r3 == [runs[3]] + r4;
      assert r4[0] == runs[2];
    }
    assert rev + [] == rev;
  }

  // ---------------------------------------------------------------------
  // Loading the job store
  // ---------------------------------------------------------------------

  /** What the settings store holds under a key: nothing, data that does not
      decode, or a decoded value. The JSON encoding round-trips fields as
      they are and is not modelled. */
  datatype Stored<T> = Absent | Undecodable | Stored(value: T)

  /** The two tests the job list is filtered by: the load check, and "has
      another id" for `removeAll(where: { $0.id == id })`. */
  datatype JobTest = IsValid | IdOtherThan(id: Uuid)

  predicate Passes(t: JobTest, c: SyncConfig) {
    match t
    case IsValid => ValidConfig(c)
    case IdOtherThan(id) => c.id != id
  }

  /** The jobs of `s` that pass `t`, in their order (Swift's `filter`). */
  function Keep(s: seq<SyncConfig>, t: JobTest): seq<SyncConfig>
    decreases |s|
  {
    if s == [] then []
    else
      var last := s[|s| - 1];
      Keep(s[..|s| - 1], t) + (if Passes(t, last) then [last] else [])
  }

  /** A job survives exactly when it was there and passes the test; the
      result is never longer than the input. */
  lemma {:induction false} KeepMembers(s: seq<SyncConfig>, t: JobTest, x: SyncConfig)
    ensures x in Keep(s, t) <==> x in s && Passes(t, x)
    ensures |Keep(s, t)| <= |s|
    decreases |s|
  {
    if s != [] {
      var init := s[..|s| - 1];
      KeepMembers(init, t, x);
      assert s == init + [s[|s| - 1]];
    }
  }

  /** Filtering works piece by piece: a split list is filtered part by
      part. So the kept jobs stay in their original order and keep their
      repetitions. */
  lemma {:induction false} KeepAppend(a: seq<SyncConfig>, b: seq<SyncConfig>, t: JobTest)
    ensures Keep(a + b, t) == Keep(a, t) + Keep(b, t)
    decreases |b|
  {
    if b == [] {
      assert a + b == a;
    } else {
      var init, last := b[..|b| - 1], b[|b| - 1];
      var ab := a + b;
      var tail := if Passes(t, last) then [last] else [];
      KeepAppend(a, init, t);
      assert ab[..|ab| - 1] == a + init;
      assert ab[|ab| - 1] == last;
      assert Keep(ab, t) == Keep(a + init, t) + tail;
      assert Keep(b, t) == Keep(init, t) + tail;
    }
  }

  lemma KeepOne(x: SyncConfig, t: JobTest)
    ensures Keep([x], t) == if Passes(t, x) then [x] else []
  {
    assert [x][..0] == [];
  }

  /** Filtering changes nothing exactly when every job passes. */
  lemma {:induction false} KeepIdentity(s: seq<SyncConfig>, t: JobTest)
    ensures Keep(s, t) == s <==> forall k :: 0 <= k < |s| ==> Passes(t, s[k])
    decreases |s|
  {
    if s != [] {
      var init, last := s[..|s| - 1], s[|s| - 1];
      KeepIdentity(init, t);
      KeepMembers(init, t, last);
      assert s == init + [last];
      assert Keep(s, t) == Keep(init, t) + (if Passes(t, last) then [last] else []);
      if forall k :: 0 <= k < |s| ==> Passes(t, s[k]) {
        assert forall k :: 0 <= k < |init| ==> init[k] == s[k];
      }
      if Keep(s, t) == s {
        assert Passes(t, last);
        assert Keep(init, t) == Keep(s, t)[..|s| - 1];
      }
    }
  }

  /** The decoded jobs that pass the validity check, in order. */
  function FilterValid(configs: seq<SyncConfig>): seq<SyncConfig> {
    Keep(configs, IsValid)
  }

  /** The job list after `loadConfigsFromUserDefaults`: the valid decoded
      jobs, or the current list when nothing decodes. */
  function Loaded(stored: Stored<seq<SyncConfig>>, current: seq<SyncConfig>): seq<SyncConfig> {
    match stored
    case Stored(cs) => FilterValid(cs)
    case _ => current
  }

  /** Loading keeps exactly the valid stored jobs, and gives a stored list
      back unchanged exactly when all its jobs are valid: saving a list of
      valid jobs and loading it again restores it. */
  lemma LoadedJobs(stored: Stored<seq<SyncConfig>>, current: seq<SyncConfig>)
    ensures stored.Stored? ==> forall c :: c in Loaded(stored, current) <==> c in stored.value && ValidConfig(c)
    ensures stored.Stored? ==>
      (Loaded(stored, current) == stored.value <==> forall k :: 0 <= k < |stored.value| ==> ValidConfig(stored.value[k]))
    ensures !stored.Stored? ==> Loaded(stored, current) == current
  {
    if stored.Stored? {
      forall c ensures c in Loaded(stored, current) <==> c in stored.value && ValidConfig(c) {
        KeepMembers(stored.value, IsValid, c);
      }
      KeepIdentity(stored.value, IsValid);
    }
  }

  // ---------------------------------------------------------------------
  // toggleConfig and removeConfig
  // ---------------------------------------------------------------------

  /** `firstIndex(where: { $0.id == id })`. */
  function FirstIndex(configs: seq<SyncConfig>, id: Uuid): (r: Option<nat>)
    ensures r.Some? ==> r.value < |configs| && configs[r.value].id == id
    ensures r.Some? ==> forall j :: 0 <= j < r.value ==> configs[j].id != id
    ensures r.None? ==> forall j :: 0 <= j < |configs| ==> configs[j].id != id
    decreases |configs|
  {
    if configs == [] then None
    else if configs[0].id == id then Some(0)
    else
      match FirstIndex(configs[1..], id)
      case None => None
      case Some(i) => Some(i + 1)
  }

  /** The job list after `toggleConfig`. */
  function ToggleFirst(configs: seq<SyncConfig>, id: Uuid): seq<SyncConfig> {
    match FirstIndex(configs, id)
    case None => configs
    case Some(i) => configs[i := configs[i].(isEnabled := !configs[i].isEnabled)]
  }

  /** Toggling flips `isEnabled` of the first job with the id and of nothing
      else; every other field and every other job is unchanged, and an
      unknown id changes nothing. */
  lemma ToggleFirstEffect(configs: seq<SyncConfig>, id: Uuid)
    ensures var r := ToggleFirst(configs, id);
      |r| == |configs|
      && (forall k :: 0 <= k < |r| ==> r[k].(isEnabled := configs[k].isEnabled) == configs[k])
      && (forall k :: 0 <= k < |r| ==>
            (r[k].isEnabled != configs[k].isEnabled <==> FirstIndex(configs, id) == Some(k)))
  {
  }

  /** Toggling twice is the identity. */
  lemma ToggleTwice(configs: seq<SyncConfig>, id: Uuid)
    ensures ToggleFirst(ToggleFirst(configs, id), id) == configs
  {
    var once := ToggleFirst(configs, id);
    match FirstIndex(configs, id)
    case None =>
    case Some(i) =>
      assert forall j :: 0 <= j < |once| ==> once[j].id == configs[j].id;
      assert FirstIndex(once, id) == Some(i) by {
        var f := FirstIndex(once, id);
        assert once[i].id == id;
        assert f.Some? && f.value <= i;
        assert f.value >= i;
      }
      assert once[i := once[i].(isEnabled := !once[i].isEnabled)] == configs;
  }

  /** Toggling keeps every job valid. */
  lemma ToggleKeepsValid(configs: seq<SyncConfig>, id: Uuid)
    requires forall k :: 0 <= k < |configs| ==> ValidConfig(configs[k])
    ensures var r := ToggleFirst(configs, id); forall k :: 0 <= k < |r| ==> ValidConfig(r[k])
  {
  }

  /** The job list after `removeConfig`. */
  function RemoveId(configs: seq<SyncConfig>, id: Uuid): seq<SyncConfig> {
    Keep(configs, IdOtherThan(id))
  }

  /** Removal drops every job with the id and keeps every other job; the
      survivors keep their order (they are a filter of the list), and a list
      without the id is left alone. */
  lemma RemoveIdEffect(configs: seq<SyncConfig>, id: Uuid)
    ensures forall c :: c in RemoveId(configs, id) <==> c in configs && c.id != id
    ensures RemoveId(configs, id) == configs <==> forall k :: 0 <= k < |configs| ==> configs[k].id != id
  {
    forall c ensures c in RemoveId(configs, id) <==> c in configs && c.id != id {
      KeepMembers(configs, IdOtherThan(id), c);
    }
    KeepIdentity(configs, IdOtherThan(id));
  }

  /** Loading keeps the stored order: the jobs decoded from a list split in
      two are the jobs of the first part followed by those of the second,
      and a single job survives exactly when it is valid. */
  lemma LoadedInOrder(a: seq<SyncConfig>, b: seq<SyncConfig>, x: SyncConfig, current: seq<SyncConfig>)
    ensures Loaded(Stored(a + b), current) == Loaded(Stored(a), current) + Loaded(Stored(b), current)
    ensures Loaded(Stored([x]), current) == if ValidConfig(x) then [x] else []
  {
    KeepAppend(a, b, IsValid);
    KeepOne(x, IsValid);
  }

  /** Removal keeps the order of the jobs that stay, and a single job stays
      exactly when its id differs. */
  lemma RemoveIdInOrder(a: seq<SyncConfig>, b: seq<SyncConfig>, x: SyncConfig, id: Uuid)
    ensures RemoveId(a + b, id) == RemoveId(a, id) + RemoveId(b, id)
    ensures RemoveId([x], id) == if x.id != id then [x] else []
  {
    KeepAppend(a, b, IdOtherThan(id));
    KeepOne(x, IdOtherThan(id));
  }

  /** Removal keeps every job valid. */
  lemma {:induction false} RemoveIdKeepsValid(configs: seq<SyncConfig>, id: Uuid)
    requires forall k :: 0 <= k < |configs| ==> ValidConfig(configs[k])
    ensures var r := RemoveId(configs, id); forall k :: 0 <= k < |r| ==> ValidConfig(r[k])
    decreases |configs|
  {
    if configs != [] {
      var init, last := configs[..|configs| - 1], configs[|configs| - 1];
      RemoveIdKeepsValid(init, id);
      assert RemoveId(configs, id) == RemoveId(init, id) + (if last.id != id then [last] else []);
      assert ValidConfig(last);
    }
  }

  // ---------------------------------------------------------------------
  // The jobs init seeds and the form's blank job
  // ---------------------------------------------------------------------

  /** The example job `init` installs when no job loads: the user's
      Documents folder into the example bucket under "example-folder/",
      disabled. */
  function SeedConfig(homeDir: string, id: Uuid, clock: TimeOfDay): SyncConfig {
    SyncConfig(id, homeDir + "/Documents", "示例目標桶", "example-folder/", clock, false)
  }

  /** The example job passes the load check, never fires, and would upload
      under keys with a doubled slash. */
  lemma SeedConfigShape(homeDir: string, id: Uuid, clock: TimeOfDay, hour: int, minute: int, file: string)
    ensures var c := SeedConfig(homeDir, id, clock);
      ValidConfig(c) && !c.isEnabled && Due([c], hour, minute) == []
      && Contains(ObjectKey(c.prefix, file), "//")
  {
    var c := SeedConfig(homeDir, id, clock);
    TrailingSlashPrefixDoublesSlash(c.prefix, file);
  }

  /** The form's blank job: no folder, no bucket, enabled by default. */
  function BlankConfig(id: Uuid, clock: TimeOfDay): SyncConfig {
    SyncConfig(id, "", "", "", clock, true)
  }

  // ---------------------------------------------------------------------
  // One tick of checkScheduledSync
  // ---------------------------------------------------------------------

  /** The records the runs of one tick add, oldest first; `world` says how
      each job's folder listing turns out. */
  function RunsOf(ran: seq<SyncConfig>, world: SyncConfig -> FolderListing, startText: string, now: Instant): seq<SyncHistory>
    decreases |ran|
  {
    if ran == [] then []
    else
      var last := ran[|ran| - 1];
      RunsOf(ran[..|ran| - 1], world, startText, now) + [RunRecord(last, world(last), startText, now)]
  }

  /** The upload requests of the runs of one tick, in the order they are made. */
  function AllPuts(ran: seq<SyncConfig>, world: SyncConfig -> FolderListing): seq<PutRequest>
    decreases |ran|
  {
    if ran == [] then []
    else
      var last := ran[|ran| - 1];
      var listing := world(last);
      AllPuts(ran[..|ran| - 1], world) + (if listing.Listed? then PutsFor(last, listing.entries) else [])
  }

  /** A tick records exactly one run per job it runs, in the order of the
      jobs, each for that job and stamped with the tick's time. */
  lemma {:induction false} RunsOfShape(ran: seq<SyncConfig>, world: SyncConfig -> FolderListing, startText: string, now: Instant)
    ensures var runs := RunsOf(ran, world, startText, now);
      |runs| == |ran|
      && forall k :: 0 <= k < |ran| ==> runs[k] == RunRecord(ran[k], world(ran[k]), startText, now)
    ensures var runs := RunsOf(ran, world, startText, now);
      forall k :: 0 <= k < |runs| ==>
        runs[k].configId == ran[k].id && runs[k].success == world(ran[k]).Listed?
    decreases |ran|
  {
    var runs := RunsOf(ran, world, startText, now);
    if ran != [] {
      var init, last := ran[..|ran| - 1], ran[|ran| - 1];
      RunsOfShape(init, world, startText, now);
      var prev := RunsOf(init, world, startText, now);
      assert runs == prev + [RunRecord(last, world(last), startText, now)];
      forall k | 0 <= k < |ran| ensures runs[k] == RunRecord(ran[k], world(ran[k]), startText, now) {
        if k < |init| {
          assert ran[k] == init[k] && runs[k] == prev[k];
        }
      }
    }
    forall k | 0 <= k < |runs|
      ensures runs[k].configId == ran[k].id && runs[k].success == world(ran[k]).Listed?
    {
      RunRecordShape(ran[k], world(ran[k]), startText, now);
    }
  }

  /** Running one more job in a tick appends its record to the tick's runs,
      inserts it at the head of the log and appends its uploads. */
  lemma TickStep(history: seq<SyncHistory>, ran: seq<SyncConfig>, config: SyncConfig,
                 world: SyncConfig -> FolderListing, startText: string, now: Instant)
    ensures var more := ran + [config]; var record := RunRecord(config, world(config), startText, now);
      RunsOf(more, world, startText, now) == RunsOf(ran, world, startText, now) + [record]
      && AddAll(history, RunsOf(more, world, startText, now))
         == AddHistory(AddAll(history, RunsOf(ran, world, startText, now)), record)
      && AllPuts(more, world)
         == AllPuts(ran, world) + (if world(config).Listed? then PutsFor(config, world(config).entries) else [])
  {
    var more := ran + [config];
    assert more[..|ran|] == ran && more[|ran|] == config;
    var runs := RunsOf(ran, world, startText, now);
    var record := RunRecord(config, world(config), startText, now);
    assert (runs + [record])[..|runs|] == runs;
  }

  /** After a tick that ran at least one job, the log holds the newest five
      of that tick's records and the earlier log, newest first; in
      particular its head is the record of the last job run. */
  lemma TickLogShape(history: seq<SyncHistory>, ran: seq<SyncConfig>, world: SyncConfig -> FolderListing,
                     startText: string, now: Instant)
    requires ran != []
    ensures var log := AddAll(history, RunsOf(ran, world, startText, now));
      var last := ran[|ran| - 1];
      |log| == Min(|ran| + |history|, MaxHistoryItems)
      && log[0] == RunRecord(last, world(last), startText, now)
  {
    var runs := RunsOf(ran, world, startText, now);
    RunsOfShape(ran, world, startText, now);
    AddAllKeepsNewest(history, runs);
    var rev := Reversed(runs);
    assert rev[0] == runs[|runs| - 1];
  }
}
