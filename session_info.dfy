/**
 * The SessionInfo class of src/utils/classes.ts: one session record held in a
 * private field, with a getter and a setter per part of the record. The getters are
 * functions of the object's state; each setter overwrites its own part in place.
 */
module Sessions {
  import opened Types

  class SessionInfo {
    /** `$sessionInfo`. */
    var info: SessionInfoRecord

    /** `new SessionInfo(sessionID)`: the default record with the id filled in. */
    constructor FromId(sessionID: string)
      ensures info.sessionID == sessionID
      ensures info.clientInfo == ClientInfo(Fetch, "fetching info", Finite(0))
      ensures info.progressState.duration == ""
      ensures info.progressState.downloadProgressState == DownloadProgressState(0, 0)
      ensures info.progressState.convertProgressState == ConvertProgressState(0, "")
      ensures info == DefaultRecord(sessionID)
    {
      info := DefaultRecord(sessionID);
    }

    /** `new SessionInfo(record)`: adopts the record unchanged. */
    constructor FromRecord(record: SessionInfoRecord)
      ensures info == record
    {
      info := record;
    }

    // -------------------------------------------------------------------------
    // Getters

    function Data(): SessionInfoRecord
      reads this
    {
      info
    }

    function GetClientInfo(): ClientInfo
      reads this
    {
      info.clientInfo
    }

    function GetDuration(): string
      reads this
    {
      info.progressState.duration
    }

    function GetDownloadProgressState(): DownloadProgressState
      reads this
    {
      info.progressState.downloadProgressState
    }

    function GetTotal(): nat
      reads this
    {
      info.progressState.downloadProgressState.total
    }

    function GetFinish(): nat
      reads this
    {
      info.progressState.downloadProgressState.finish
    }

    function GetConvertProgressState(): ConvertProgressState
      reads this
    {
      info.progressState.convertProgressState
    }

    // -------------------------------------------------------------------------
    // Setters: each one replaces its own part and keeps the rest of the record

    method SetData(record: SessionInfoRecord)
      modifies this
      ensures Data() == record
    {
      info := record;
    }

    method SetClientInfo(clientInfo: ClientInfo)
      modifies this
      ensures GetClientInfo() == clientInfo
      ensures info == old(info).(clientInfo := clientInfo)
    {
      info := info.(clientInfo := clientInfo);
    }

    method SetDuration(duration: string)
      modifies this
      ensures GetDuration() == duration
      ensures info == old(info).(progressState := old(info).progressState.(duration := duration))
    {
      info := info.(progressState := info.progressState.(duration := duration));
    }

    method SetDownloadProgressState(state: DownloadProgressState)
      modifies this
      ensures GetDownloadProgressState() == state
      ensures info == old(info).(progressState := old(info).progressState.(downloadProgressState := state))
    {
      info := info.(progressState := info.progressState.(downloadProgressState := state));
    }

    /** `___total = n`: only `downloadProgressState.total` changes. */
    method SetTotal(n: nat)
      modifies this
      ensures GetTotal() == n
      ensures GetFinish() == old(GetFinish())
      ensures info == old(info).(progressState := old(info).progressState.(
                        downloadProgressState := old(info).progressState.downloadProgressState.(total := n)))
    {
      var ps := info.progressState;
      info := info.(progressState := ps.(downloadProgressState := ps.downloadProgressState.(total := n)));
    }

    /** `___finish = n`: only `downloadProgressState.finish` changes. */
    method SetFinish(n: nat)
      modifies this
      ensures GetFinish() == n
      ensures GetTotal() == old(GetTotal())
      ensures info == old(info).(progressState := old(info).progressState.(
                        downloadProgressState := old(info).progressState.downloadProgressState.(finish := n)))
    {
      var ps := info.progressState;
      info := info.(progressState := ps.(downloadProgressState := ps.downloadProgressState.(finish := n)));
    }

    method SetConvertProgressState(state: ConvertProgressState)
      modifies this
      ensures GetConvertProgressState() == state
      ensures info == old(info).(progressState := old(info).progressState.(convertProgressState := state))
    {
      info := info.(progressState := info.progressState.(convertProgressState := state));
    }
  }
}
