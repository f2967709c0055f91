/**
 * The session record and its parts, as declared in the `yt.Progress` namespace of
 * src/types/youtube-types.d.ts. Numbers the source keeps as JavaScript doubles are
 * integers here; a percentage that comes out as NaN or Infinity is `NonFinite`
 * (JSON stores it as null).
 */
module Types {

  datatype Option<+T> = None | Some(value: T)

  /** `ClientInfoStateType`: "fetch" | "progress" | "error". */
  datatype ClientState = Fetch | Progress | Error

  /** The `progress` number shown to the client. */
  datatype Percent = Finite(value: int) | NonFinite

  /** `ClientInfoType`: what a polling client sees. */
  datatype ClientInfo = ClientInfo(state: ClientState, msg: string, progress: Percent)

  /** `DownloadProgressStateType`: files to download and files downloaded. */
  datatype DownloadProgressState = DownloadProgressState(total: nat, finish: nat)

  /** `ConvertProgressStateType`: the processor's output size in kB and its time mark (hh:mm:ss.xx). */
  datatype ConvertProgressState = ConvertProgressState(size: nat, timeMark: string)

  /** `ProgressStateType`. */
  datatype ProgressState = ProgressState(
    duration: string,
    downloadProgressState: DownloadProgressState,
    convertProgressState: ConvertProgressState)

  /** `SessionInfoType`: the record kept in a session's info.json. */
  datatype SessionInfoRecord = SessionInfoRecord(
    sessionID: string,
    clientInfo: ClientInfo,
    progressState: ProgressState)

  /**
   * `ProgressStagesType` together with the `progressInfo` argument each stage reads:
   * a download stage needs none, a convert stage a ConvertProgressState, a duration
   * stage the duration text.
   */
  datatype ProgressStage = Download | Convert(progressInfo: ConvertProgressState) | Duration(duration: string)

  /** The client information of a freshly opened session. */
  const FetchingInfo: ClientInfo := ClientInfo(Fetch, "fetching info", Finite(0))

  /** The default record a SessionInfo starts from, with its session id filled in. */
  function DefaultRecord(sessionID: string): SessionInfoRecord {
    SessionInfoRecord(
      sessionID,
      FetchingInfo,
      ProgressState("", DownloadProgressState(0, 0), ConvertProgressState(0, "")))
  }
}
