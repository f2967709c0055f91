/**
 * The request handlers of src/routes/youtube/ytHandlers.ts and the middleware order
 * of the download routes in src/routes/youtube/youtube.ts, over the session store.
 * Everything the handlers learn from outside (the URL check, the video information,
 * file reads and writes, the download streams, the media processor's events, the
 * delivery of the output) is an input.
 */
module Handlers {
  import opened Text
  import opened Types
  import opened Formats
  import opened Selector
  import opened Progress
  import opened Sessions
  import opened Store
  import opened Downloads

  // ---------------------------------------------------------------------------
  // Replies

  const InvalidVideoUrl := 201
  const SessionFolderMissing := 202
  const SessionReadFailed := 203
  const SessionSaveFailed := 204
  const DownloadFailed := 205
  const SessionOpenFailed := 206

  /**
   * What a handler sends: a bare status, a JSON body, the output file, the output file
   * cut off after its headers went out, or nothing yet.
   */
  datatype Reply =
    | Status(code: int)
    | Opened(sessionID: string, progressInfo: ClientInfo)
    | Report(clientInfo: ClientInfo)
    | Sent(file: string)
    | Interrupted(file: string)
    | NoReply

  /**
   * Whether the response emits `finish`: every reply does, except none at all and a
   * file transfer that failed after its headers were sent (its `sendStatus(205)` can
   * no longer respond).
   */
  predicate Completes(reply: Reply) {
    !reply.NoReply? && !reply.Interrupted?
  }

  /** How `response.download` of the output went: delivered, failed before sending anything, or failed part-way. */
  datatype Delivery = Delivered | FailedBeforeSending | FailedWhileSending

  /** What a poll of a closed or unreadable session reports. */
  const SessionClosed: ClientInfo := ClientInfo(Error, "session closed \U{1F480}", Finite(0))

  // ---------------------------------------------------------------------------
  // Opening a session and polling it

  /**
   * openDownloadSessionHandler, for the fresh id `sessionID`: create the folder,
   * write the default record, and return the id with the initial client information.
   */
  method OpenDownloadSessionHandler(store: SessionStore, sessionID: string, mkdirOk: bool, writeOk: bool)
    returns (reply: Reply)
    modifies store
    ensures reply == Status(SessionOpenFailed) <==> sessionID in old(store.folders) || !mkdirOk || !writeOk
    ensures reply != Status(SessionOpenFailed) ==>
              && reply == Opened(sessionID, FetchingInfo)
              && store.folders == old(store.folders)[sessionID := SessionFolder(Some(DefaultRecord(sessionID)), {})]
    ensures sessionID in old(store.folders) || !mkdirOk ==> store.folders == old(store.folders)
    ensures sessionID !in old(store.folders) && mkdirOk && !writeOk ==>
              store.folders == old(store.folders)[sessionID := SessionFolder(None, {})]
  {
    var sessionInfo := new SessionInfo.FromId(sessionID);
    var error := store.CreateSessionFolder(sessionID, mkdirOk);
    if error {
      return Status(SessionOpenFailed);
    }
    var saved := store.SaveInfoToJson(sessionID, sessionInfo.Data(), writeOk);
    if !saved {
      return Status(SessionOpenFailed);
    }
    return Opened(sessionID, sessionInfo.GetClientInfo());
  }

  /** getSessionProgressHandler: the stored client information, or "session closed" when it cannot be read. */
  method GetSessionProgressHandler(store: SessionStore, sessionID: string, readOk: bool) returns (reply: Reply)
    ensures ReadOutcome(store.folders, sessionID, readOk).ReadFailed? ==> reply == Report(SessionClosed)
    ensures ReadOutcome(store.folders, sessionID, readOk).Read? ==>
              reply == Report(Lookup(store.folders, sessionID).value.clientInfo)
  {
    var result := store.ReadSessionFile(sessionID, readOk);
    if result.ReadFailed? {
      return Report(SessionClosed);
    }
    return Report(result.sessionInfo.clientInfo);
  }

  // ---------------------------------------------------------------------------
  // Middleware

  /** How `ytdl.validateURL` answered: valid, invalid, or by throwing. */
  datatype UrlVerdict = ValidUrl | InvalidUrl | ValidatorThrows

  /** A middleware's decision: call `next()`, or respond with a status. */
  datatype Step = Next | Respond(code: int)

  /** videoUrlValidator: an invalid URL and a throwing validator both give 201. */
  method VideoUrlValidator(verdict: UrlVerdict) returns (step: Step)
    ensures step == Next <==> verdict == ValidUrl
    ensures step != Next ==> step == Respond(InvalidVideoUrl)
  {
    if verdict == InvalidUrl {
      return Respond(InvalidVideoUrl);
    }
    if verdict == ValidatorThrows {
      return Respond(InvalidVideoUrl);
    }
    return Next;
  }

  /**
   * Where `path.resolve(tempFolderPath, sessionID)` lands: the temporary directory
   * itself for "" and ".", the directory above it for "..", a folder of its own for
   * any other name without a '/', and some other path otherwise.
   */
  datatype SessionPath = TempRoot | AboveTempRoot | OwnFolder | OtherPath

  function ResolveSessionPath(sessionID: string): (r: SessionPath)
    ensures r == OwnFolder ==> sessionID != "" && sessionID != "." && sessionID != ".." && '/' !in sessionID
  {
    if sessionID == "" || sessionID == "." then TempRoot
    else if sessionID == ".." then AboveTempRoot
    else if '/' in sessionID then OtherPath
    else OwnFolder
  }

  /**
   * The folder check as written, `existsSync(path.resolve(tempFolderPath, sessionID))`.
   * The temporary directory exists once it was made (`rootMade`), and always while it
   * holds a session folder; the directory above it always exists.
   */
  function FolderCheckAsWritten(folders: map<string, SessionFolder>, sessionID: string, rootMade: bool): (r: bool)
    requires ResolveSessionPath(sessionID) != OtherPath
    ensures ResolveSessionPath(sessionID) == OwnFolder ==> (r <==> sessionID in folders)
    ensures folders != map[] && ResolveSessionPath(sessionID) != OwnFolder ==> r
  {
    match ResolveSessionPath(sessionID)
      case TempRoot => rootMade || folders != map[]
      case AboveTempRoot => true
      case OwnFolder => sessionID in folders
  }

  /** The folders after the cleaner's `rm(path.resolve(tempFolderPath, sessionID), {recursive, force})`. */
  function CleanupAsWritten(folders: map<string, SessionFolder>, sessionID: string): (r: map<string, SessionFolder>)
    requires ResolveSessionPath(sessionID) != OtherPath
    ensures ResolveSessionPath(sessionID) == OwnFolder ==> r == folders - {sessionID}
    ensures ResolveSessionPath(sessionID) != OwnFolder ==> r == map[]
  {
    if ResolveSessionPath(sessionID) == OwnFolder then folders - {sessionID} else map[]
  }

  /**
   * As written, the id "." passes the folder check whenever some session is open, and
   * the cleaner then removes the temporary directory with every session in it.
   */
  lemma DotSessionRemovesEverySession(folders: map<string, SessionFolder>, other: string)
    requires other in folders
    ensures FolderCheckAsWritten(folders, ".", false)
    ensures other !in CleanupAsWritten(folders, ".")
    ensures CleanupAsWritten(folders, ".") == map[]
  {
  }

  /** The folder check the routes rely on: the id names a folder of its own, and that folder exists. */
  predicate SessionFolderFound(folders: map<string, SessionFolder>, sessionID: string) {
    ResolveSessionPath(sessionID) == OwnFolder && sessionID in folders
  }

  /**
   * Once the id passes the folder check, the cleaner's `rm` as written removes that
   * session's folder and no other.
   */
  lemma CheckedCleanupIsolated(folders: map<string, SessionFolder>, sessionID: string, rootMade: bool)
    requires SessionFolderFound(folders, sessionID)
    ensures FolderCheckAsWritten(folders, sessionID, rootMade)
    ensures CleanupAsWritten(folders, sessionID).Keys == folders.Keys - {sessionID}
    ensures forall k :: k in folders && k != sessionID ==> k in CleanupAsWritten(folders, sessionID)
  {
  }

  /**
   * sessionFolderValidator: a missing session folder gives 202. An id that is not a
   * folder name of its own ("", ".", "..", or one holding a '/') gives 202 as well.
   */
  method SessionFolderValidator(store: SessionStore, sessionID: string) returns (step: Step)
    ensures step == Next <==> SessionFolderFound(store.folders, sessionID)
    ensures step != Next ==> step == Respond(SessionFolderMissing)
  {
    if ResolveSessionPath(sessionID) != OwnFolder || !store.Exists(sessionID) {
      return Respond(SessionFolderMissing);
    }
    return Next;
  }

  /**
   * downloadSessionCleaner: once the response has finished, the whole session folder
   * is removed, whether or not it still exists.
   */
  method DownloadSessionCleaner(store: SessionStore, sessionID: string, responseFinished: bool)
    modifies store
    ensures responseFinished ==> store.folders == old(store.folders) - {sessionID}
    ensures !responseFinished ==> store.folders == old(store.folders)
  {
    if responseFinished {
      store.RemoveSessionFolder(sessionID);
    }
  }

  // ---------------------------------------------------------------------------
  // Choosing the formats

  /** `getVideoFormats(formats)`. */
  function VideoList(formats: seq<Format>): seq<Format> {
    KeptUpTo(formats, |formats|, VideoMatch, VideoKey)
  }

  /** `getAudioFormats(formats)`. */
  function AudioList(formats: seq<Format>): seq<Format> {
    SortByBitrateDesc(KeptUpTo(formats, |formats|, AudioMatch, AudioKey))
  }

  /** The video format and the audio format a video download uses. */
  datatype VideoPick = VideoPick(video: Format, audio: Format)

  /** The video handler's choice: the safe video selection, and the head of the audio list. */
  function VideoPlan(formats: seq<Format>, quality: int): Option<VideoPick> {
    match SelectVideo(VideoList(formats), quality)
      case Picked(video) =>
        var audio := AudioList(formats);
        if |audio| == 0 then None else Some(VideoPick(video, audio[0]))
      case _ => None
  }

  /** The audio handler's choice: the safe audio selection over the audio list. */
  function AudioPlan(formats: seq<Format>, quality: int): Option<Format> {
    match SelectAudio(AudioList(formats), quality)
      case Picked(audio) => Some(audio)
      case _ => None
  }

  /**
   * The video handler's selection step: the video format the safe selector picks from
   * the filtered video list, and, when the input has any audio-only format, the audio
   * format of highest bitrate.
   */
  method ResolveVideoFormats(formats: seq<Format>, quality: int) returns (pick: Option<VideoPick>)
    ensures pick == VideoPlan(formats, quality)
    ensures pick.Some? <==>
              SelectVideo(VideoList(formats), quality).Picked?
              && exists i :: 0 <= i < |formats| && AudioMatch(formats[i])
    ensures pick.Some? ==>
              && pick.value.video in formats && VideoMatch(pick.value.video)
              && pick.value.audio in formats && AudioMatch(pick.value.audio)
              && forall i :: 0 <= i < |formats| && AudioMatch(formats[i]) ==>
                   formats[i].audioBitrate <= pick.value.audio.audioBitrate
  {
    VideoPlanFacts(formats, quality);
    var videoFormats := GetVideoFormats(formats);
    var target := GetVideoFormatSafe(videoFormats, quality);
    if !target.Picked? {
      return None;
    }
    var audioFormats := GetAudioFormats(formats);
    if |audioFormats| == 0 {
      return None;
    }
    return Some(VideoPick(target.format, audioFormats[0]));
  }

  /**
   * The video plan succeeds exactly when the video selection does and the input has
   * an audio-only format; the picked formats come from the input, and the audio one
   * has the highest bitrate.
   */
  lemma VideoPlanFacts(formats: seq<Format>, quality: int)
    ensures VideoPlan(formats, quality).Some? <==>
              SelectVideo(VideoList(formats), quality).Picked?
              && exists i :: 0 <= i < |formats| && AudioMatch(formats[i])
    ensures VideoPlan(formats, quality).Some? ==>
              && VideoPlan(formats, quality).value.video in formats && VideoMatch(VideoPlan(formats, quality).value.video)
              && VideoPlan(formats, quality).value.audio in formats && AudioMatch(VideoPlan(formats, quality).value.audio)
              && forall i :: 0 <= i < |formats| && AudioMatch(formats[i]) ==>
                   formats[i].audioBitrate <= VideoPlan(formats, quality).value.audio.audioBitrate
  {
    var videos := VideoList(formats);
    var kept := KeptUpTo(formats, |formats|, AudioMatch, AudioKey);
    var audio := AudioList(formats);
    AudioListOrdered(formats, kept, audio);
    AudioListCoversBitrates(formats, kept, audio);
    var selection := SelectVideo(videos, quality);
    if selection.Picked? {
      SelectOutcome(videos, quality, VideoExactMatch, VideoTierMatch, VideoFallback);
      KeptProperties(formats, VideoMatch, VideoKey);
      var k :| 0 <= k < |videos| && videos[k] == selection.format;
      assert VideoMatch(videos[k]) && videos[k] in formats;
      if |audio| == 0 {
        assert !exists i :: 0 <= i < |formats| && AudioMatch(formats[i]);
      } else {
        assert AudioMatch(audio[0]) && audio[0] in formats;
      }
    }
  }

  /** The audio handler's selection step. */
  method ResolveAudioFormat(formats: seq<Format>, quality: int) returns (pick: Option<Format>)
    ensures pick == AudioPlan(formats, quality)
    ensures pick.Some? ==> pick.value in formats && AudioMatch(pick.value)
  {
    var audioFormats := GetAudioFormats(formats);
    var target := GetAudioFormatSafe(audioFormats, quality);
    if !target.Picked? {
      return None;
    }
    var k :| 0 <= k < |audioFormats| && audioFormats[k] == target.format;
    assert AudioMatch(audioFormats[k]);
    return Some(target.format);
  }

  // ---------------------------------------------------------------------------
  // Announcing the number of files

  /** The record with its download total set to `total`. */
  function WithTotal(rec: SessionInfoRecord, total: nat): SessionInfoRecord {
    rec.(progressState := rec.progressState.(
      downloadProgressState := rec.progressState.downloadProgressState.(total := total)))
  }

  /**
   * Read the session, set `___total`, write it back: 203 when the read fails, 204 when
   * the write fails, and on success only the total of the stored record changes.
   */
  method SetSessionTotal(store: SessionStore, sessionID: string, total: nat, readOk: bool, writeOk: bool)
    returns (failure: Option<int>)
    modifies store
    ensures ReadOutcome(old(store.folders), sessionID, readOk).ReadFailed? ==> failure == Some(SessionReadFailed)
    ensures ReadOutcome(old(store.folders), sessionID, readOk).Read? && !writeOk ==> failure == Some(SessionSaveFailed)
    ensures failure.None? <==> ReadOutcome(old(store.folders), sessionID, readOk).Read? && writeOk
    ensures failure.Some? ==> store.folders == old(store.folders)
    ensures failure.None? ==>
              && sessionID in old(store.folders)
              && store.folders == Saved(old(store.folders), sessionID, WithTotal(Lookup(old(store.folders), sessionID).value, total))
  {
    var result := store.ReadSessionFile(sessionID, readOk);
    if result.ReadFailed? {
      return Some(SessionReadFailed);
    }
    var sessionInfo := new SessionInfo.FromRecord(result.sessionInfo);
    sessionInfo.SetTotal(total);
    var saved := store.SaveInfoToJson(sessionID, sessionInfo.Data(), writeOk);
    if !saved {
      return Some(SessionSaveFailed);
    }
    return None;
  }

  /** Setting the total keeps the finished count, the duration, the converting state and the client information. */
  lemma WithTotalOnlyTotal(rec: SessionInfoRecord, total: nat)
    ensures WithTotal(rec, total).progressState.downloadProgressState
            == DownloadProgressState(total, rec.progressState.downloadProgressState.finish)
    ensures WithTotal(rec, total).(progressState := rec.progressState) == rec
    ensures WithTotal(rec, total).progressState.(downloadProgressState := rec.progressState.downloadProgressState)
            == rec.progressState
  {
  }

  // ---------------------------------------------------------------------------
  // The media processor

  /** The processor's events: `start`, `codecData`, `progress`, `end` and `error`. */
  datatype ProcessorEvent = Start | CodecData(duration: string) | ProgressTick(targetSize: nat, timemark: string) | End | Failed

  /** An event, with the outcomes of the read and the write of the progress update it triggers. */
  datatype Tick = Tick(event: ProcessorEvent, readOk: bool, writeOk: bool)

  /** The events after which the processor emits nothing more. */
  predicate Terminal(e: ProcessorEvent) {
    e.End? || e.Failed?
  }

  /** The position of the first terminal event, or the length when there is none. */
  function FirstTerminal(ticks: seq<Tick>): (k: nat)
    ensures k <= |ticks|
    ensures k < |ticks| ==> Terminal(ticks[k].event)
    ensures forall j :: 0 <= j < k ==> !Terminal(ticks[j].event)
  {
    if ticks == [] then 0
    else if Terminal(ticks[0].event) then 0
    else 1 + FirstTerminal(ticks[1..])
  }

  /** The progress stage an event is routed to: codecData to `duration`, progress to `convert`. */
  function StageOf(e: ProcessorEvent): Option<ProgressStage> {
    match e
      case CodecData(duration) => Some(Duration(duration))
      case ProgressTick(size, timemark) => Some(Convert(ConvertProgressState(size, timemark)))
      case _ => None
  }

  /**
   * The store after the progress updates of `ticks`, in order: no folder appears or
   * goes, no file changes, no other session's record changes, and every announced
   * total stays.
   */
  function TickUpdates(folders: map<string, SessionFolder>, sessionID: string, ticks: seq<Tick>): (r: map<string, SessionFolder>)
    ensures r.Keys == folders.Keys
    ensures forall k :: k in r ==> r[k].files == folders[k].files
    ensures forall k :: k != sessionID ==> Lookup(r, k) == Lookup(folders, k)
    ensures Total(r, sessionID) == Total(folders, sessionID)
  {
    if ticks == [] then folders
    else
      var before := TickUpdates(folders, sessionID, ticks[..|ticks| - 1]);
      var last := ticks[|ticks| - 1];
      match StageOf(last.event)
        case Some(stage) => Updated(before, stage, sessionID, last.readOk, last.writeOk)
        case None => before
  }

  /**
   * The reply the processor's events lead to: at `end` the output, 205 when its
   * delivery fails before anything was sent, a cut-off transfer when it fails later;
   * 205 at `error`; nothing before either.
   */
  function ProcessorReply(ticks: seq<Tick>, output: string, delivery: Delivery): (r: Reply)
    ensures r == NoReply <==> forall j :: 0 <= j < |ticks| ==> !Terminal(ticks[j].event)
    ensures r.Sent? || r.Interrupted? || r == NoReply || r == Status(DownloadFailed)
    ensures r.Sent? || r.Interrupted? ==> r.file == output
    ensures r.Sent? ==> delivery == Delivered
    ensures r.Interrupted? ==> delivery == FailedWhileSending
  {
    var k := FirstTerminal(ticks);
    if k == |ticks| then NoReply
    else if ticks[k].event.End? then
      match delivery
        case Delivered => Sent(output)
        case FailedBeforeSending => Status(DownloadFailed)
        case FailedWhileSending => Interrupted(output)
    else Status(DownloadFailed)
  }

  /** The store after the processor's events: the updates up to the first terminal event, and at `end` the intermediates unlinked. */
  function ProcessorEffect(folders: map<string, SessionFolder>, sessionID: string, ticks: seq<Tick>,
                           intermediates: seq<string>): (r: map<string, SessionFolder>)
    ensures r.Keys == folders.Keys
    ensures forall k :: k != sessionID ==> Lookup(r, k) == Lookup(folders, k)
    ensures Total(r, sessionID) == Total(folders, sessionID)
  {
    var k := FirstTerminal(ticks);
    var updated := TickUpdates(folders, sessionID, ticks[..k]);
    if k < |ticks| && ticks[k].event.End? then WithoutFiles(updated, sessionID, intermediates) else updated
  }

  lemma WithoutOneMore(folders: map<string, SessionFolder>, sessionID: string, names: seq<string>, name: string)
    ensures WithoutFiles(WithoutFiles(folders, sessionID, names), sessionID, [name])
            == WithoutFiles(folders, sessionID, names + [name])
  {
    assert (set n | n in names + [name]) == (set n | n in names) + {name};
    if sessionID in folders {
      var f := folders[sessionID];
      var once := WithoutFiles(folders, sessionID, names);
      assert once[sessionID].files == f.files - set n | n in names;
      assert (set n | n in [name]) == {name};
      assert (f.files - set n | n in names) - {name} == f.files - set n | n in names + [name];
    }
  }

  /** `unlink` each of `names` in the session folder, in order. */
  method UnlinkAll(store: SessionStore, sessionID: string, names: seq<string>)
    modifies store
    ensures store.folders == WithoutFiles(old(store.folders), sessionID, names)
  {
    ghost var start := store.folders;
    assert WithoutFiles(start, sessionID, names[..0]) == start by {
      assert (set n | n in names[..0]) == {};
      if sessionID in start {
        assert start[sessionID].(files := start[sessionID].files - {}) == start[sessionID];
      }
    }
    for j := 0 to |names|
      invariant store.folders == WithoutFiles(start, sessionID, names[..j])
    {
      WithoutOneMore(start, sessionID, names[..j], names[j]);
      assert names[..j + 1] == names[..j] + [names[j]];
      store.DeleteFile(sessionID, names[j]);
    }
    assert names[..|names|] == names;
  }

  /**
   * Run the processor on the downloaded files: its output file appears, each event is
   * routed to its progress stage, and at `end` the intermediates are unlinked before
   * the output is delivered.
   */
  method RunProcessor(store: SessionStore, sessionID: string, intermediates: seq<string>, output: string,
                      ticks: seq<Tick>, delivery: Delivery) returns (reply: Reply)
    modifies store
    ensures reply == ProcessorReply(ticks, output, delivery)
    ensures store.folders == ProcessorEffect(WithFile(old(store.folders), sessionID, output), sessionID, ticks, intermediates)
    ensures store.folders.Keys == old(store.folders).Keys
  {
    store.AddFile(sessionID, output);
    ghost var start := store.folders;
    for i := 0 to |ticks|
      invariant forall j :: 0 <= j < i ==> !Terminal(ticks[j].event)
      invariant store.folders == TickUpdates(start, sessionID, ticks[..i])
      invariant store.folders.Keys == old(store.folders).Keys
    {
      assert ticks[..i + 1][..i] == ticks[..i];
      var tick := ticks[i];
      match tick.event {
        case Start =>
        case CodecData(duration) =>
          store.UpdateSessionProgress(Duration(duration), sessionID, tick.readOk, tick.writeOk);
        case ProgressTick(targetSize, timemark) =>
          store.UpdateSessionProgress(Convert(ConvertProgressState(targetSize, timemark)), sessionID, tick.readOk, tick.writeOk);
        case End =>
          assert FirstTerminal(ticks) == i;
          UnlinkAll(store, sessionID, intermediates);
          match delivery {
            case Delivered => return Sent(output);
            case FailedBeforeSending => return Status(DownloadFailed);
            case FailedWhileSending => return Interrupted(output);
          }
        case Failed =>
          assert FirstTerminal(ticks) == i;
          return Status(DownloadFailed);
      }
    }
    assert FirstTerminal(ticks) == |ticks|;
    assert ticks[..|ticks|] == ticks;
    return NoReply;
  }

  /** Once the processor has ended or failed, later events change neither the reply nor the store. */
  lemma ProcessorSettlesOnce(folders: map<string, SessionFolder>, sessionID: string, ticks: seq<Tick>,
                             later: seq<Tick>, intermediates: seq<string>, output: string, delivery: Delivery)
    requires FirstTerminal(ticks) < |ticks|
    ensures ProcessorReply(ticks + later, output, delivery) == ProcessorReply(ticks, output, delivery)
    ensures ProcessorEffect(folders, sessionID, ticks + later, intermediates)
            == ProcessorEffect(folders, sessionID, ticks, intermediates)
  {
    var k := FirstTerminal(ticks);
    var extended := ticks + later;
    FirstTerminalOfExtension(ticks, later);
    assert extended[k] == ticks[k];
    assert extended[..k] == ticks[..k];
    EffectUpToFirstTerminal(folders, sessionID, ticks, extended, intermediates);
  }

  /** Two event lists that agree up to and including the first terminal event have the same effect. */
  lemma EffectUpToFirstTerminal(folders: map<string, SessionFolder>, sessionID: string, ticks: seq<Tick>,
                                extended: seq<Tick>, intermediates: seq<string>)
    requires FirstTerminal(ticks) < |ticks| && FirstTerminal(ticks) < |extended|
    requires FirstTerminal(extended) == FirstTerminal(ticks)
    requires extended[FirstTerminal(ticks)] == ticks[FirstTerminal(ticks)]
    requires extended[..FirstTerminal(ticks)] == ticks[..FirstTerminal(ticks)]
    ensures ProcessorEffect(folders, sessionID, extended, intermediates)
            == ProcessorEffect(folders, sessionID, ticks, intermediates)
  {
  }

  /** Events appended after a terminal one do not move the first terminal event. */
  lemma {:induction false} FirstTerminalOfExtension(ticks: seq<Tick>, later: seq<Tick>)
    requires FirstTerminal(ticks) < |ticks|
    ensures FirstTerminal(ticks + later) == FirstTerminal(ticks)
  {
    assert (ticks + later)[0] == ticks[0];
    if !Terminal(ticks[0].event) {
      assert (ticks + later)[1..] == ticks[1..] + later;
      FirstTerminalOfExtension(ticks[1..], later);
    }
  }

  /**
   * When the processor ends, the session's intermediate files are gone, the output
   * is still there, and the reply is the output, or 205 if its delivery failed before
   * anything was sent, or a cut-off transfer.
   */
  lemma EndRemovesIntermediates(folders: map<string, SessionFolder>, sessionID: string, ticks: seq<Tick>,
                                intermediates: seq<string>, output: string, delivery: Delivery)
    requires sessionID in folders && output in folders[sessionID].files && output !in intermediates
    requires FirstTerminal(ticks) < |ticks| && ticks[FirstTerminal(ticks)].event.End?
    ensures sessionID in ProcessorEffect(folders, sessionID, ticks, intermediates)
    ensures forall n :: n in intermediates ==> n !in ProcessorEffect(folders, sessionID, ticks, intermediates)[sessionID].files
    ensures output in ProcessorEffect(folders, sessionID, ticks, intermediates)[sessionID].files
    ensures ProcessorReply(ticks, output, delivery)
            == match delivery
                 case Delivered => Sent(output)
                 case FailedBeforeSending => Status(DownloadFailed)
                 case FailedWhileSending => Interrupted(output)
  {
  }

  /** An `error` from the processor gives 205 and unlinks nothing. */
  lemma ProcessorErrorIs205(folders: map<string, SessionFolder>, sessionID: string, ticks: seq<Tick>,
                            intermediates: seq<string>, output: string, delivery: Delivery)
    requires FirstTerminal(ticks) < |ticks| && ticks[FirstTerminal(ticks)].event.Failed?
    ensures ProcessorReply(ticks, output, delivery) == Status(DownloadFailed)
    ensures ProcessorEffect(folders, sessionID, ticks, intermediates)
            == TickUpdates(folders, sessionID, ticks[..FirstTerminal(ticks)])
  {
  }

  /** A `codecData` event whose read and write succeed stores the reported duration. */
  lemma CodecDataSetsDuration(folders: map<string, SessionFolder>, sessionID: string, duration: string)
    requires Lookup(folders, sessionID).Some?
    ensures Lookup(TickUpdates(folders, sessionID, [Tick(CodecData(duration), true, true)]), sessionID)
            == Some(ApplyStage(Lookup(folders, sessionID).value, Duration(duration)))
  {
    assert [Tick(CodecData(duration), true, true)][..0] == [];
  }

  /** A `progress` event whose read and write succeed stores the converting state and its message. */
  lemma ProgressTickConverts(folders: map<string, SessionFolder>, sessionID: string, size: nat, timemark: string)
    requires Lookup(folders, sessionID).Some?
    ensures Lookup(TickUpdates(folders, sessionID, [Tick(ProgressTick(size, timemark), true, true)]), sessionID).Some?
    ensures Lookup(TickUpdates(folders, sessionID, [Tick(ProgressTick(size, timemark), true, true)]), sessionID).value
            .progressState.convertProgressState == ConvertProgressState(size, timemark)
    ensures Lookup(TickUpdates(folders, sessionID, [Tick(ProgressTick(size, timemark), true, true)]), sessionID).value
            .clientInfo.msg == "converting...(" + FileSizeText(size) + ")"
  {
    assert [Tick(ProgressTick(size, timemark), true, true)][..0] == [];
  }

  // ---------------------------------------------------------------------------
  // The download handlers

  /** What `ytdl.getInfo` gave: a failure, or the video's formats. */
  datatype InfoResult = InfoFailed | Info(formats: seq<Format>)

  /** The outside world during one video download request. */
  datatype VideoRun = VideoRun(
    info: InfoResult,
    readOk: bool,
    writeOk: bool,
    videoEvents: seq<StreamEvent>,
    audioEvents: seq<StreamEvent>,
    audioFinishesFirst: bool,
    ticks: seq<Tick>,
    delivery: Delivery)

  /** The outside world during one audio download request. */
  datatype AudioRun = AudioRun(
    info: InfoResult,
    readOk: bool,
    writeOk: bool,
    audioEvents: seq<StreamEvent>,
    ticks: seq<Tick>,
    delivery: Delivery)

  /** The store after one download into the session folder: the file opened, then the progress updates of its events. */
  function AfterDownload(folders: map<string, SessionFolder>, sessionID: string, name: string,
                         events: seq<StreamEvent>): map<string, SessionFolder>
  {
    ProgressUpdates(WithFile(folders, sessionID, name), sessionID, events)
  }

  /** The store after the video and the audio download, in the order they finish. */
  function AfterBothDownloads(folders: map<string, SessionFolder>, sessionID: string, videoFile: string,
                              audioFile: string, run: VideoRun): map<string, SessionFolder>
  {
    if run.audioFinishesFirst then
      AfterDownload(AfterDownload(folders, sessionID, audioFile, run.audioEvents), sessionID, videoFile, run.videoEvents)
    else
      AfterDownload(AfterDownload(folders, sessionID, videoFile, run.videoEvents), sessionID, audioFile, run.audioEvents)
  }

  /** Both downloads of a video request, each awaited; `Promise.allSettled` waits for the later one. */
  method DownloadBoth(store: SessionStore, sessionID: string, videoFile: string, audioFile: string, run: VideoRun)
    returns (videoStatus: Settlement, audioStatus: Settlement)
    modifies store
    ensures videoStatus == Outcome(run.videoEvents) && audioStatus == Outcome(run.audioEvents)
    ensures store.folders == AfterBothDownloads(old(store.folders), sessionID, videoFile, audioFile, run)
  {
    if run.audioFinishesFirst {
      audioStatus := DownloadFile(store, sessionID, audioFile, run.audioEvents);
      videoStatus := DownloadFile(store, sessionID, videoFile, run.videoEvents);
    } else {
      videoStatus := DownloadFile(store, sessionID, videoFile, run.videoEvents);
      audioStatus := DownloadFile(store, sessionID, audioFile, run.audioEvents);
    }
  }

  /**
   * What a video download request whose formats resolved to `pick`, and whose
   * session record was read and written back, leaves in the store: the record
   * announces two files, both downloads follow in the order they finish, and when
   * both succeeded the processor runs on them. Only the session's own folder changes,
   * and its total stays two.
   */
  function VideoDownloadEffect(folders: map<string, SessionFolder>, sessionID: string, pick: VideoPick,
                               run: VideoRun): (r: map<string, SessionFolder>)
    requires Lookup(folders, sessionID).Some?
    ensures r.Keys == folders.Keys
    ensures Total(r, sessionID) == Some(2)
    ensures forall k :: k != sessionID ==> Lookup(r, k) == Lookup(folders, k)
  {
    VideoFilesEffect(Saved(folders, sessionID, WithTotal(Lookup(folders, sessionID).value, 2)), sessionID, pick, run)
  }

  /**
   * What the two downloads and the merge of a video request do to the store once
   * the total is announced: both downloads in the order they finish, then, when both
   * succeeded, the processor on them.
   */
  function VideoFilesEffect(folders: map<string, SessionFolder>, sessionID: string, pick: VideoPick,
                            run: VideoRun): (r: map<string, SessionFolder>)
    ensures r.Keys == folders.Keys
    ensures Total(r, sessionID) == Total(folders, sessionID)
    ensures forall k :: k != sessionID ==> Lookup(r, k) == Lookup(folders, k)
  {
    var videoFile := "video." + pick.video.container;
    var audioFile := "audio." + pick.audio.container;
    var downloaded := AfterBothDownloads(folders, sessionID, videoFile, audioFile, run);
    if Outcome(run.videoEvents) == Settled(true) && Outcome(run.audioEvents) == Settled(true) then
      ProcessorEffect(WithFile(downloaded, sessionID, "output.mp4"), sessionID, run.ticks, [videoFile, audioFile])
    else downloaded
  }

  /**
   * The video request after the total is announced: download both files and wait for
   * both; no reply while one is pending, 205 if either failed, otherwise merge them.
   */
  method DownloadAndMergeVideo(store: SessionStore, sessionID: string, pick: VideoPick, run: VideoRun)
    returns (reply: Reply)
    modifies store
    ensures Outcome(run.videoEvents).Pending? || Outcome(run.audioEvents).Pending? ==> reply == NoReply
    ensures Outcome(run.videoEvents) == Settled(false) && Outcome(run.audioEvents).Settled? ==> reply == Status(DownloadFailed)
    ensures Outcome(run.audioEvents) == Settled(false) && Outcome(run.videoEvents).Settled? ==> reply == Status(DownloadFailed)
    ensures Outcome(run.videoEvents) == Settled(true) && Outcome(run.audioEvents) == Settled(true) ==>
              reply == ProcessorReply(run.ticks, "output.mp4", run.delivery)
    ensures store.folders == VideoFilesEffect(old(store.folders), sessionID, pick, run)
  {
    var videoFile := "video." + pick.video.container;
    var audioFile := "audio." + pick.audio.container;
    var videoStatus, audioStatus := DownloadBoth(store, sessionID, videoFile, audioFile, run);
    if videoStatus.Pending? || audioStatus.Pending? {
      // Promise.allSettled never resolves
      return NoReply;
    }
    if !videoStatus.ok || !audioStatus.ok {
      return Status(DownloadFailed);
    }
    reply := RunProcessor(store, sessionID, [videoFile, audioFile], "output.mp4", run.ticks, run.delivery);
  }

  /**
   * What an audio download request whose format resolved to `audio`, and whose
   * session record was read and written back, leaves in the store: the record
   * announces one file, the download follows, and when it succeeded the processor
   * runs on it. Only the session's own folder changes, and its total stays one.
   */
  function AudioDownloadEffect(folders: map<string, SessionFolder>, sessionID: string, audio: Format,
                               run: AudioRun): (r: map<string, SessionFolder>)
    requires Lookup(folders, sessionID).Some?
    ensures r.Keys == folders.Keys
    ensures Total(r, sessionID) == Some(1)
    ensures forall k :: k != sessionID ==> Lookup(r, k) == Lookup(folders, k)
  {
    var announced := Saved(folders, sessionID, WithTotal(Lookup(folders, sessionID).value, 1));
    var audioFile := "audio." + audio.container;
    var downloaded := AfterDownload(announced, sessionID, audioFile, run.audioEvents);
    if Outcome(run.audioEvents) == Settled(true) then
      ProcessorEffect(WithFile(downloaded, sessionID, "output.mp3"), sessionID, run.ticks, [audioFile])
    else downloaded
  }

  /** A download whose file stream finishes, whose progress update reads and writes, and which then closes. */
  const CleanDownload: seq<StreamEvent> := [WriteFinish(true, true), Close]

  /** A clean download counts its file once in the session record. */
  lemma CleanDownloadCounts(folders: map<string, SessionFolder>, sessionID: string, name: string)
    requires Lookup(folders, sessionID).Some?
    ensures Lookup(AfterDownload(folders, sessionID, name, CleanDownload), sessionID)
            == Some(ApplyStage(Lookup(folders, sessionID).value, Download))
  {
    var withFile := WithFile(folders, sessionID, name);
    assert CleanDownload[..1] == [WriteFinish(true, true)] && CleanDownload[..1][..0] == [];
    assert ProgressUpdates(withFile, sessionID, CleanDownload[..1]) == Updated(withFile, Download, sessionID, true, true);
  }

  /**
   * Two clean downloads into a session that had finished none, before the processor
   * reports anything: the record counts two of two and reports "preparing...(2/2)" at
   * 100 percent, in either order.
   */
  lemma BothFilesDownloaded(folders: map<string, SessionFolder>, sessionID: string, pick: VideoPick, run: VideoRun)
    requires Lookup(folders, sessionID).Some?
    requires Lookup(folders, sessionID).value.progressState.downloadProgressState.finish == 0
    requires run.videoEvents == CleanDownload && run.audioEvents == CleanDownload && run.ticks == []
    ensures Lookup(VideoDownloadEffect(folders, sessionID, pick, run), sessionID).Some?
    ensures Lookup(VideoDownloadEffect(folders, sessionID, pick, run), sessionID).value.progressState.downloadProgressState
            == DownloadProgressState(2, 2)
    ensures Lookup(VideoDownloadEffect(folders, sessionID, pick, run), sessionID).value.clientInfo
            == ClientInfo(Progress, "preparing...(2/2)", Finite(100))
  {
    var announced := Saved(folders, sessionID, WithTotal(Lookup(folders, sessionID).value, 2));
    var videoFile := "video." + pick.video.container;
    var audioFile := "audio." + pick.audio.container;
    var (first, second) := if run.audioFinishesFirst then (audioFile, videoFile) else (videoFile, audioFile);
    var once := AfterDownload(announced, sessionID, first, CleanDownload);
    var twice := AfterDownload(once, sessionID, second, CleanDownload);
    assert twice == AfterBothDownloads(announced, sessionID, videoFile, audioFile, run);
    CleanDownloadCounts(announced, sessionID, first);
    CleanDownloadCounts(once, sessionID, second);
    LastDownloadIsDone(Lookup(once, sessionID).value, 2);
    assert NatText(2) == "2";
    assert Outcome(CleanDownload) == Settled(true) by {
      assert CleanDownload[..1] == [WriteFinish(true, true)] && CleanDownload[..1][..0] == [];
    }
    var merged := WithFile(twice, sessionID, "output.mp4");
    assert VideoDownloadEffect(folders, sessionID, pick, run) == ProcessorEffect(merged, sessionID, [], [videoFile, audioFile]);
    var noTicks: seq<Tick> := [];
    assert ProcessorEffect(merged, sessionID, noTicks, [videoFile, audioFile]) == merged by {
      assert noTicks[..0] == noTicks;
    }
  }

  /**
   * One clean download into a session that had finished none, before the processor
   * reports anything: the record counts one of one and reports "preparing...(1/1)" at
   * 100 percent.
   */
  lemma AudioFileDownloaded(folders: map<string, SessionFolder>, sessionID: string, audio: Format, run: AudioRun)
    requires Lookup(folders, sessionID).Some?
    requires Lookup(folders, sessionID).value.progressState.downloadProgressState.finish == 0
    requires run.audioEvents == CleanDownload && run.ticks == []
    ensures Lookup(AudioDownloadEffect(folders, sessionID, audio, run), sessionID).Some?
    ensures Lookup(AudioDownloadEffect(folders, sessionID, audio, run), sessionID).value.progressState.downloadProgressState
            == DownloadProgressState(1, 1)
    ensures Lookup(AudioDownloadEffect(folders, sessionID, audio, run), sessionID).value.clientInfo
            == ClientInfo(Progress, "preparing...(1/1)", Finite(100))
  {
    var announced := Saved(folders, sessionID, WithTotal(Lookup(folders, sessionID).value, 1));
    var audioFile := "audio." + audio.container;
    var once := AfterDownload(announced, sessionID, audioFile, CleanDownload);
    CleanDownloadCounts(announced, sessionID, audioFile);
    LastDownloadIsDone(Lookup(announced, sessionID).value, 1);
    assert NatText(1) == "1";
    assert Outcome(CleanDownload) == Settled(true) by {
      assert CleanDownload[..1] == [WriteFinish(true, true)] && CleanDownload[..1][..0] == [];
    }
    assert AudioDownloadEffect(folders, sessionID, audio, run)
           == ProcessorEffect(WithFile(once, sessionID, "output.mp3"), sessionID, [], [audioFile]);
  }

  predicate VideoPlanned(run: VideoRun, quality: int) {
    run.info.Info? && VideoPlan(run.info.formats, quality).Some?
  }

  predicate AudioPlanned(run: AudioRun, quality: int) {
    run.info.Info? && AudioPlan(run.info.formats, quality).Some?
  }

  /**
   * ytVideoDownloadHandler: choose the formats (205 when that fails, before the session
   * is read), announce two files (203/204), download both and wait for both (205 if
   * either failed, no reply while one is pending), then merge them.
   */
  method YtVideoDownloadHandler(store: SessionStore, sessionID: string, quality: int, run: VideoRun)
    returns (reply: Reply)
    modifies store
    ensures !VideoPlanned(run, quality) ==> reply == Status(DownloadFailed) && store.folders == old(store.folders)
    ensures VideoPlanned(run, quality) && ReadOutcome(old(store.folders), sessionID, run.readOk).ReadFailed? ==>
              reply == Status(SessionReadFailed) && store.folders == old(store.folders)
    ensures VideoPlanned(run, quality) && ReadOutcome(old(store.folders), sessionID, run.readOk).Read? && !run.writeOk ==>
              reply == Status(SessionSaveFailed) && store.folders == old(store.folders)
    ensures VideoPlanned(run, quality) && ReadOutcome(old(store.folders), sessionID, run.readOk).Read? && run.writeOk ==>
              && (Outcome(run.videoEvents).Pending? || Outcome(run.audioEvents).Pending? ==> reply == NoReply)
              && (Outcome(run.videoEvents) == Settled(false) && Outcome(run.audioEvents).Settled? ==> reply == Status(DownloadFailed))
              && (Outcome(run.audioEvents) == Settled(false) && Outcome(run.videoEvents).Settled? ==> reply == Status(DownloadFailed))
              && (Outcome(run.videoEvents) == Settled(true) && Outcome(run.audioEvents) == Settled(true) ==>
                    reply == ProcessorReply(run.ticks, "output.mp4", run.delivery))
              && store.folders == VideoDownloadEffect(old(store.folders), sessionID, VideoPlan(run.info.formats, quality).value, run)
              && Total(store.folders, sessionID) == Some(2)
    ensures reply.Sent? || reply.Interrupted? ==> reply.file == "output.mp4"
    ensures reply.Sent? || reply.Interrupted? || reply == NoReply ==> VideoPlanned(run, quality) && run.writeOk
    ensures store.folders.Keys == old(store.folders).Keys
  {
    if run.info.InfoFailed? {
      return Status(DownloadFailed);
    }
    var pick := ResolveVideoFormats(run.info.formats, quality);
    if pick.None? {
      return Status(DownloadFailed);
    }
    var failure := SetSessionTotal(store, sessionID, 2, run.readOk, run.writeOk);
    if failure.Some? {
      return Status(failure.value);
    }
    reply := DownloadAndMergeVideo(store, sessionID, pick.value, run);
  }

  /**
   * ytAudioDownloadHandler: choose the format (205 when that fails, before the session
   * is read), announce one file (203/204), download it (205 if it failed, no reply
   * while pending), then convert it.
   */
  method YtAudioDownloadHandler(store: SessionStore, sessionID: string, quality: int, run: AudioRun)
    returns (reply: Reply)
    modifies store
    ensures !AudioPlanned(run, quality) ==> reply == Status(DownloadFailed) && store.folders == old(store.folders)
    ensures AudioPlanned(run, quality) && ReadOutcome(old(store.folders), sessionID, run.readOk).ReadFailed? ==>
              reply == Status(SessionReadFailed) && store.folders == old(store.folders)
    ensures AudioPlanned(run, quality) && ReadOutcome(old(store.folders), sessionID, run.readOk).Read? && !run.writeOk ==>
              reply == Status(SessionSaveFailed) && store.folders == old(store.folders)
    ensures AudioPlanned(run, quality) && ReadOutcome(old(store.folders), sessionID, run.readOk).Read? && run.writeOk ==>
              && (Outcome(run.audioEvents).Pending? ==> reply == NoReply)
              && (Outcome(run.audioEvents) == Settled(false) ==> reply == Status(DownloadFailed))
              && (Outcome(run.audioEvents) == Settled(true) ==> reply == ProcessorReply(run.ticks, "output.mp3", run.delivery))
              && store.folders == AudioDownloadEffect(old(store.folders), sessionID, AudioPlan(run.info.formats, quality).value, run)
              && Total(store.folders, sessionID) == Some(1)
    ensures reply.Sent? || reply.Interrupted? ==> reply.file == "output.mp3"
    ensures reply.Sent? || reply.Interrupted? || reply == NoReply ==> AudioPlanned(run, quality) && run.writeOk
    ensures store.folders.Keys == old(store.folders).Keys
  {
    if run.info.InfoFailed? {
      return Status(DownloadFailed);
    }
    var pick := ResolveAudioFormat(run.info.formats, quality);
    if pick.None? {
      return Status(DownloadFailed);
    }
    var targetFormat := pick.value;
    var failure := SetSessionTotal(store, sessionID, 1, run.readOk, run.writeOk);
    if failure.Some? {
      return Status(failure.value);
    }
    var audioFile := "audio." + targetFormat.container;
    var audioStatus := DownloadFile(store, sessionID, audioFile, run.audioEvents);
    if audioStatus.Pending? {
      return NoReply;
    }
    if !audioStatus.ok {
      return Status(DownloadFailed);
    }
    reply := RunProcessor(store, sessionID, [audioFile], "output.mp3", run.ticks, run.delivery);
  }

  // ---------------------------------------------------------------------------
  // The download routes

  /**
   * POST /video-download: URL check, folder check, cleaner, handler. A reply from a
   * validator leaves the store alone; once the handler has replied, the session
   * folder is gone.
   */
  method VideoDownloadRoute(store: SessionStore, verdict: UrlVerdict, sessionID: string, quality: int, run: VideoRun)
    returns (reply: Reply)
    modifies store
    ensures verdict != ValidUrl ==> reply == Status(InvalidVideoUrl) && store.folders == old(store.folders)
    ensures verdict == ValidUrl && !SessionFolderFound(old(store.folders), sessionID) ==>
              reply == Status(SessionFolderMissing) && store.folders == old(store.folders)
    ensures verdict == ValidUrl && SessionFolderFound(old(store.folders), sessionID) && !VideoPlanned(run, quality) ==>
              reply == Status(DownloadFailed)
    ensures verdict == ValidUrl && SessionFolderFound(old(store.folders), sessionID) && Completes(reply) ==>
              sessionID !in store.folders
    ensures verdict == ValidUrl && SessionFolderFound(old(store.folders), sessionID) ==>
              store.folders.Keys == old(store.folders).Keys - (if Completes(reply) then {sessionID} else {})
  {
    var step := VideoUrlValidator(verdict);
    if step.Respond? {
      return Status(step.code);
    }
    step := SessionFolderValidator(store, sessionID);
    if step.Respond? {
      return Status(step.code);
    }
    reply := YtVideoDownloadHandler(store, sessionID, quality, run);
    DownloadSessionCleaner(store, sessionID, Completes(reply));
  }

  /** POST /audio-download: the same middleware in the same order, then the audio handler. */
  method AudioDownloadRoute(store: SessionStore, verdict: UrlVerdict, sessionID: string, quality: int, run: AudioRun)
    returns (reply: Reply)
    modifies store
    ensures verdict != ValidUrl ==> reply == Status(InvalidVideoUrl) && store.folders == old(store.folders)
    ensures verdict == ValidUrl && !SessionFolderFound(old(store.folders), sessionID) ==>
              reply == Status(SessionFolderMissing) && store.folders == old(store.folders)
    ensures verdict == ValidUrl && SessionFolderFound(old(store.folders), sessionID) && !AudioPlanned(run, quality) ==>
              reply == Status(DownloadFailed)
    ensures verdict == ValidUrl && SessionFolderFound(old(store.folders), sessionID) && Completes(reply) ==>
              sessionID !in store.folders
    ensures verdict == ValidUrl && SessionFolderFound(old(store.folders), sessionID) ==>
              store.folders.Keys == old(store.folders).Keys - (if Completes(reply) then {sessionID} else {})
  {
    var step := VideoUrlValidator(verdict);
    if step.Respond? {
      return Status(step.code);
    }
    step := SessionFolderValidator(store, sessionID);
    if step.Respond? {
      return Status(step.code);
    }
    reply := YtAudioDownloadHandler(store, sessionID, quality, run);
    DownloadSessionCleaner(store, sessionID, Completes(reply));
  }
}
