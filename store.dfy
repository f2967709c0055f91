/**
 * The session store: one folder per session id under the temporary directory,
 * holding the session's info.json and the files the handlers download and produce
 * (createSessionFolder, saveInfoToJson, readSessionFile, updateSessionProgress in
 * src/routes/youtube/ytHelpers.ts, and the removals in src/routes/youtube/ytHandlers.ts).
 *
 * The folders are a map from session id; whether a directory could be created, a
 * file read or written is an input to each operation.
 */
module Store {
  import opened Text
  import opened Types
  import opened Progress
  import opened Sessions

  /** A session folder: its info.json record, if one was written, and its other files. */
  datatype SessionFolder = SessionFolder(info: Option<SessionInfoRecord>, files: set<string>)

  /** `{ success, sessionInfo }` of readSessionFile. */
  datatype ReadResult = Read(sessionInfo: SessionInfoRecord) | ReadFailed

  /** The record in a session's info.json, if the folder and the file exist. */
  function Lookup(folders: map<string, SessionFolder>, sessionID: string): Option<SessionInfoRecord> {
    if sessionID in folders then folders[sessionID].info else None
  }

  /** The folders after info.json of `sessionID` is overwritten with `data`. */
  function Saved(folders: map<string, SessionFolder>, sessionID: string, data: SessionInfoRecord): map<string, SessionFolder>
    requires sessionID in folders
  {
    folders[sessionID := folders[sessionID].(info := Some(data))]
  }

  /** What readSessionFile returns when the folder's file is as stored and the read goes as `readOk` says. */
  function ReadOutcome(folders: map<string, SessionFolder>, sessionID: string, readOk: bool): ReadResult {
    match Lookup(folders, sessionID)
      case Some(record) => if readOk then Read(record) else ReadFailed
      case None => ReadFailed
  }

  /** The number of files a session announced (`downloadProgressState.total`), when its record exists. */
  function Total(folders: map<string, SessionFolder>, sessionID: string): Option<nat> {
    match Lookup(folders, sessionID)
      case Some(record) => Some(record.progressState.downloadProgressState.total)
      case None => None
  }

  /**
   * What updateSessionProgress leaves behind: the stage applied and written back, or
   * nothing when a step fails. No folder appears or goes, no file changes, no other
   * session's record changes, and every announced total stays.
   */
  function Updated(folders: map<string, SessionFolder>, stage: ProgressStage, sessionID: string,
                   readOk: bool, writeOk: bool): (r: map<string, SessionFolder>)
    ensures r.Keys == folders.Keys
    ensures forall k :: k in r ==> r[k].files == folders[k].files
    ensures forall k :: k != sessionID ==> Lookup(r, k) == Lookup(folders, k)
    ensures Total(r, sessionID) == Total(folders, sessionID)
    ensures Lookup(r, sessionID) != Lookup(folders, sessionID) ==>
              && readOk && writeOk && Lookup(folders, sessionID).Some?
              && Lookup(r, sessionID) == Some(ApplyStage(Lookup(folders, sessionID).value, stage))
  {
    match ReadOutcome(folders, sessionID, readOk)
      case ReadFailed => folders
      case Read(record) => if writeOk then Saved(folders, sessionID, ApplyStage(record, stage)) else folders
  }

  /** The folders after `name` is written into the folder of `sessionID`, if that folder exists. */
  function WithFile(folders: map<string, SessionFolder>, sessionID: string, name: string): (r: map<string, SessionFolder>)
    ensures r.Keys == folders.Keys
    ensures forall k :: Lookup(r, k) == Lookup(folders, k)
    ensures Total(r, sessionID) == Total(folders, sessionID)
    ensures sessionID in r ==> r[sessionID].files == folders[sessionID].files + {name}
    ensures forall k :: k in r && k != sessionID ==> r[k] == folders[k]
  {
    if sessionID in folders then folders[sessionID := folders[sessionID].(files := folders[sessionID].files + {name})]
    else folders
  }

  /** The folders after each of `names` is unlinked from the folder of `sessionID`. */
  function WithoutFiles(folders: map<string, SessionFolder>, sessionID: string, names: seq<string>): (r: map<string, SessionFolder>)
    ensures r.Keys == folders.Keys
    ensures forall k :: Lookup(r, k) == Lookup(folders, k)
    ensures Total(r, sessionID) == Total(folders, sessionID)
    ensures sessionID in r ==> forall n :: n in r[sessionID].files <==> n in folders[sessionID].files && n !in names
    ensures forall k :: k in r && k != sessionID ==> r[k] == folders[k]
  {
    if sessionID in folders then folders[sessionID := folders[sessionID].(files := folders[sessionID].files - set n | n in names)]
    else folders
  }

  /** A record written to a session reads back unchanged. */
  lemma ReadAfterSave(folders: map<string, SessionFolder>, sessionID: string, data: SessionInfoRecord)
    requires sessionID in folders
    ensures ReadOutcome(Saved(folders, sessionID, data), sessionID, true) == Read(data)
    ensures Lookup(Saved(folders, sessionID, data), sessionID) == Some(data)
  {
  }

  /** Writing one session's record leaves every other session as it was. */
  lemma SaveIsolated(folders: map<string, SessionFolder>, sessionID: string, data: SessionInfoRecord, other: string)
    requires sessionID in folders && other != sessionID
    ensures Lookup(Saved(folders, sessionID, data), other) == Lookup(folders, other)
    ensures other in Saved(folders, sessionID, data) <==> other in folders
    ensures other in folders ==> Saved(folders, sessionID, data)[other] == folders[other]
  {
  }

  /** A session without a folder, or with a folder but no info.json, never reads successfully. */
  lemma ReadMissingFails(folders: map<string, SessionFolder>, sessionID: string, readOk: bool)
    requires Lookup(folders, sessionID).None?
    ensures ReadOutcome(folders, sessionID, readOk) == ReadFailed
  {
  }

  /**
   * A progress update touches only its own session's record, keeps its files, and
   * on success stores the stage applied to what was there.
   */
  lemma UpdateFacts(folders: map<string, SessionFolder>, stage: ProgressStage, sessionID: string,
                    readOk: bool, writeOk: bool, other: string)
    requires other != sessionID
    ensures Lookup(Updated(folders, stage, sessionID, readOk, writeOk), other) == Lookup(folders, other)
    ensures Updated(folders, stage, sessionID, readOk, writeOk).Keys == folders.Keys
    ensures sessionID in folders ==>
              Updated(folders, stage, sessionID, readOk, writeOk)[sessionID].files == folders[sessionID].files
    ensures readOk && writeOk && Lookup(folders, sessionID).Some? ==>
              Lookup(Updated(folders, stage, sessionID, readOk, writeOk), sessionID)
              == Some(ApplyStage(Lookup(folders, sessionID).value, stage))
    ensures !(readOk && writeOk && Lookup(folders, sessionID).Some?) ==>
              Updated(folders, stage, sessionID, readOk, writeOk) == folders
  {
  }

  class SessionStore {
    /** The session folders under the temporary directory. */
    var folders: map<string, SessionFolder>

    constructor ()
      ensures folders == map[]
    {
      folders := map[];
    }

    /** Whether the session folder exists (`fs.existsSync`). */
    function Exists(sessionID: string): bool
      reads this
    {
      sessionID in folders
    }

    /**
     * createSessionFolder: an error when the folder already exists or cannot be
     * made; otherwise a new, empty folder.
     */
    method CreateSessionFolder(sessionID: string, mkdirOk: bool) returns (error: bool)
      modifies this
      ensures error <==> sessionID in old(folders) || !mkdirOk
      ensures error ==> folders == old(folders)
      ensures !error ==> folders == old(folders)[sessionID := SessionFolder(None, {})]
    {
      if sessionID in folders {
        return true;
      }
      if !mkdirOk {
        return true;
      }
      folders := folders[sessionID := SessionFolder(None, {})];
      return false;
    }

    /** saveInfoToJson: fails when the folder is missing or the write fails; otherwise info.json holds `data`. */
    method SaveInfoToJson(sessionID: string, data: SessionInfoRecord, writeOk: bool) returns (ok: bool)
      modifies this
      ensures ok <==> sessionID in old(folders) && writeOk
      ensures ok ==> folders == Saved(old(folders), sessionID, data)
      ensures !ok ==> folders == old(folders)
    {
      if sessionID !in folders || !writeOk {
        return false;
      }
      folders := Saved(folders, sessionID, data);
      return true;
    }

    /** readSessionFile: the stored record, or a failure when there is none or it cannot be read. */
    method ReadSessionFile(sessionID: string, readOk: bool) returns (r: ReadResult)
      ensures r.Read? <==> readOk && Lookup(folders, sessionID).Some?
      ensures r.Read? ==> Some(r.sessionInfo) == Lookup(folders, sessionID)
      ensures r == ReadOutcome(folders, sessionID, readOk)
    {
      if sessionID !in folders || folders[sessionID].info.None? || !readOk {
        return ReadFailed;
      }
      return Read(folders[sessionID].info.value);
    }

    /**
     * updateSessionProgress: read the record, apply the stage through a SessionInfo
     * object, write it back; a failed read writes nothing.
     */
    method UpdateSessionProgress(stage: ProgressStage, sessionID: string, readOk: bool, writeOk: bool)
      modifies this
      ensures folders == Updated(old(folders), stage, sessionID, readOk, writeOk)
    {
      var result := ReadSessionFile(sessionID, readOk);
      if result.Read? {
        var newSessionInfo := new SessionInfo.FromRecord(result.sessionInfo);
        match stage {
          case Download =>
            newSessionInfo.SetFinish(newSessionInfo.GetFinish() + 1);
            var state := newSessionInfo.GetDownloadProgressState();
            newSessionInfo.SetClientInfo(ClientInfo(
              Progress,
              "preparing...(" + NatText(state.finish) + "/" + NatText(state.total) + ")",
              DownloadPercent(state.finish, state.total)));
          case Convert(progressInfo) =>
            newSessionInfo.SetConvertProgressState(ConvertProgressState(progressInfo.size, progressInfo.timeMark));
            newSessionInfo.SetClientInfo(ClientInfo(
              Progress,
              "converting...(" + FileSizeText(progressInfo.size) + ")",
              ConvertPercent(progressInfo.timeMark, newSessionInfo.GetDuration())));
          case Duration(duration) =>
            newSessionInfo.SetDuration(duration);
        }
        var _ := SaveInfoToJson(sessionID, newSessionInfo.Data(), writeOk);
      }
    }

    /** A file written into the session folder (a download's stream or the processor's output). */
    method AddFile(sessionID: string, name: string)
      modifies this
      ensures folders == WithFile(old(folders), sessionID, name)
    {
      if sessionID in folders {
        folders := folders[sessionID := folders[sessionID].(files := folders[sessionID].files + {name})];
      }
    }

    /** `unlink` of a file in the session folder; a missing file is only logged. */
    method DeleteFile(sessionID: string, name: string)
      modifies this
      ensures folders == WithoutFiles(old(folders), sessionID, [name])
    {
      assert (set n | n in [name]) == {name};
      if sessionID in folders {
        folders := folders[sessionID := folders[sessionID].(files := folders[sessionID].files - {name})];
      }
    }

    /** `rm(folder, { recursive: true, force: true })`: the folder and everything in it go; a missing folder is no error. */
    method RemoveSessionFolder(sessionID: string)
      modifies this
      ensures folders == old(folders) - {sessionID}
      ensures sessionID !in folders
    {
      folders := folders - {sessionID};
    }
  }

  /** Removing a session folder twice is the same as removing it once. */
  lemma RemoveIdempotent(folders: map<string, SessionFolder>, sessionID: string)
    ensures (folders - {sessionID}) - {sessionID} == folders - {sessionID}
  {
  }
}
