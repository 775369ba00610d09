/** The older `search::ops` revision of the search session: the same slot,
    without the task list; `write` reports whether the session was still
    running and `read` gives `None` once it is not. */
module OpsSearch {
  import opened Prim
  import opened Files
  import opened Pattern
  import opened EntryFilter

  datatype StreamWriteResult = Success | StreamTerminated

  /** The `STREAM` static: `None` when no search is running. */
  class Stream {
    var queue: Option<seq<PitouFile>>

    constructor ()
      ensures queue == None
    {
      queue := None;
    }

    /** `terminate_stream`. */
    method TerminateStream()
      modifies this
      ensures queue == None
    {
      queue := None;
    }

    /** `begin_stream`. */
    method BeginStream()
      modifies this
      ensures queue == Some([])
    {
      queue := Some([]);
    }

    /** `read`: `None` when inactive; otherwise every buffered find in write
      order, leaving the buffer empty. */
    method Read() returns (batch: Option<seq<PitouFile>>)
      modifies this
      ensures batch == old(queue)
      ensures queue == (if old(queue).Some? then Some([]) else None)
    {
      batch := queue;
      if queue.Some? {
        queue := Some([]);
      }
    }

    /** `write`: appends and reports `Success` while active; reports
      `StreamTerminated` and changes nothing otherwise. */
    method Write(find: PitouFile) returns (r: StreamWriteResult)
      modifies this
      ensures r == Success <==> old(queue).Some?
      ensures r == Success ==> queue == Some(old(queue).value + [find])
      ensures r == StreamTerminated ==> queue == old(queue)
    {
      match queue
      case Some(l) =>
        queue := Some(l + [find]);
        r := Success;
      case None =>
        r := StreamTerminated;
    }
  }

  /** The synchronous part of `search`: it short-circuits when all-filtered
      and otherwise opens a fresh session before spawning the traversal. */
  method Search(s: Stream, options: SearchOptions) returns (started: bool)
    modifies s
    ensures started <==> !AllFiltered(options.filter)
    ensures !started ==> s.queue == old(s.queue)
    ensures started ==> s.queue == Some([])
  {
    var (variables, directory) := FromSearchOptions(options);
    if AllFiltered(variables.filter) {
      return false;
    }
    s.BeginStream();
    started := true;
  }

  /** What the spawned task does once the root traversal returns. */
  method FinishSearch(s: Stream)
    modifies s
    ensures s.queue == None
  {
    s.TerminateStream();
  }
}
