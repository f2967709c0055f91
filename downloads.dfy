/**
 * downloadFile of src/routes/youtube/ytHelpers.ts, with the streams abstracted to the
 * sequence of events they emit. The promise settles once, on the first source
 * error, write error or write finish; every write finish not preceded by a source
 * error also counts the file as downloaded in the session record.
 */
module Downloads {
  import opened Types
  import opened Store

  /**
   * What the download and its file stream report: the source's `error`, the file
   * stream's `finish` (with the outcomes of the progress update's read and write),
   * the file stream's `error`, and its `close`.
   */
  datatype StreamEvent = SourceError | WriteFinish(readOk: bool, writeOk: bool) | WriteError | Close

  /** The promise: still pending, or resolved to `{ ok }`. */
  datatype Settlement = Pending | Settled(ok: bool)

  /** Events whose handler calls `resolve`. */
  predicate Settles(e: StreamEvent) {
    !e.Close?
  }

  /** The promise after `events`: a later `resolve` has no effect on a settled promise. */
  function Outcome(events: seq<StreamEvent>): (r: Settlement)
    ensures r.Pending? <==> forall j :: 0 <= j < |events| ==> !Settles(events[j])
  {
    if events == [] then Pending
    else
      var before := Outcome(events[..|events| - 1]);
      if before.Settled? then before
      else match events[|events| - 1]
        case SourceError => Settled(false)
        case WriteFinish(_, _) => Settled(true)
        case WriteError => Settled(false)
        case Close => Pending
  }

  /** The store after the `download` progress updates the events trigger. */
  function ProgressUpdates(folders: map<string, SessionFolder>, sessionID: string,
                           events: seq<StreamEvent>): (r: map<string, SessionFolder>)
    ensures r.Keys == folders.Keys
    ensures forall k :: k in r ==> r[k].files == folders[k].files
    ensures forall k :: k != sessionID ==> Lookup(r, k) == Lookup(folders, k)
    ensures Total(r, sessionID) == Total(folders, sessionID)
  {
    if events == [] then folders
    else
      var init := events[..|events| - 1];
      var before := ProgressUpdates(folders, sessionID, init);
      match events[|events| - 1]
        case WriteFinish(readOk, writeOk) =>
          if SourceError in init then before else Updated(before, Download, sessionID, readOk, writeOk)
        case _ => before
  }

  /** Settle once: nothing that happens after the promise settles changes its value. */
  lemma {:induction false} SettledStays(events: seq<StreamEvent>, later: seq<StreamEvent>)
    requires Outcome(events).Settled?
    ensures Outcome(events + later) == Outcome(events)
  {
    if later == [] {
      assert events + later == events;
    } else {
      assert (events + later)[..|events + later| - 1] == events + later[..|later| - 1];
      SettledStays(events, later[..|later| - 1]);
    }
  }

  /** The promise settles exactly when some event settles it. */
  lemma {:induction false} SettledIffSomeSettles(events: seq<StreamEvent>)
    ensures Outcome(events).Settled? <==> exists k :: 0 <= k < |events| && Settles(events[k])
  {
    if events != [] {
      var n := |events| - 1;
      var init := events[..n];
      SettledIffSomeSettles(init);
      if Outcome(init).Settled? {
        var k :| 0 <= k < n && Settles(init[k]);
        assert events[k] == init[k];
      } else if exists k :: 0 <= k < |events| && Settles(events[k]) {
        var k :| 0 <= k < |events| && Settles(events[k]);
        if k < n {
          assert init[k] == events[k];
        }
      }
    }
  }

  /**
   * Once some event settles the promise, its value is the verdict of the first such
   * event: ok for a write finish, not ok for either error.
   */
  lemma {:induction false} FirstSettlingDecides(events: seq<StreamEvent>, k: nat)
    requires k < |events| && Settles(events[k])
    requires forall j :: 0 <= j < k ==> !Settles(events[j])
    ensures Outcome(events) == Settled(events[k].WriteFinish?)
  {
    var n := |events| - 1;
    var init := events[..n];
    if k < n {
      assert init[k] == events[k];
      assert forall j :: 0 <= j < k ==> init[j] == events[j];
      FirstSettlingDecides(init, k);
    } else {
      assert forall j :: 0 <= j < n ==> !Settles(init[j]);
      SettledIffSomeSettles(init);
    }
  }

  /** downloadFile: open the file, follow the events, and report how the promise settled. */
  method DownloadFile(store: SessionStore, sessionID: string, fileName: string, events: seq<StreamEvent>)
    returns (status: Settlement)
    modifies store
    ensures status == Outcome(events)
    ensures store.folders == ProgressUpdates(WithFile(old(store.folders), sessionID, fileName), sessionID, events)
  {
    store.AddFile(sessionID, fileName);
    ghost var start := store.folders;
    var failed := false;
    status := Pending;
    for i := 0 to |events|
      invariant status == Outcome(events[..i])
      invariant failed <==> SourceError in events[..i]
      invariant failed ==> status.Settled?
      invariant store.folders == ProgressUpdates(start, sessionID, events[..i])
    {
      assert events[..i + 1][..i] == events[..i];
      match events[i] {
        case SourceError =>
          failed := true;
          if status.Pending? {
            status := Settled(false);
          }
        case WriteFinish(readOk, writeOk) =>
          if !failed {
            store.UpdateSessionProgress(Download, sessionID, readOk, writeOk);
            if status.Pending? {
              status := Settled(true);
            }
          }
        case WriteError =>
          if status.Pending? {
            status := Settled(false);
          }
        case Close =>
      }
    }
    assert events[..|events|] == events;
  }
}
