/** The backend revision of the search session: a process-wide slot that is
    either empty (no search running) or holds the buffer of finds not yet
    read, together with the list of spawned traversal tasks; and the
    synchronous part of `search`, which checks the filter and opens the
    session before the traversal is spawned. */
module BackendSearch {
  import opened Prim
  import opened Files
  import opened Pattern
  import opened EntryFilter

  /** `SearchMsg`: a batch of finds, tagged with whether the session was
      still running when it was read. */
  datatype SearchMsg = Active(finds: seq<PitouFile>) | Terminated(finds: seq<PitouFile>)

  /** A `JoinHandle<()>` of a spawned traversal task, as an opaque id. */
  type Handle = nat

  /** The `stream` module's two statics: `STREAM` (`None` when no search is
      running) and `HANDLES`. Each method is one locked step. */
  class Stream {
    var queue: Option<seq<PitouFile>>
    var handles: seq<Handle>

    /** The statics' initial values, set by `get_or_init`. */
    constructor ()
      ensures queue == None && handles == []
    {
      queue := None;
      handles := [];
    }

    /** `is_active`: a buffer is present. */
    method IsActive() returns (active: bool)
      ensures active <==> queue.Some?
    {
      active := queue.Some?;
    }

    /** `terminate_stream`: drops the buffer; idempotent. */
    method TerminateStream()
      modifies this
      ensures queue == None
      ensures handles == old(handles)
    {
      queue := None;
    }

    /** `begin_stream`: a fresh empty buffer, replacing any earlier one. */
    method BeginStream()
      modifies this
      ensures queue == Some([])
      ensures handles == old(handles)
    {
      queue := Some([]);
    }

    /** `read`: while active, drains the whole buffer in write order; when
      inactive, reports `Terminated` with no finds and changes nothing. */
    method Read() returns (msg: SearchMsg)
      modifies this
      ensures old(queue).Some? ==> msg == Active(old(queue).value) && queue == Some([])
      ensures old(queue).None? ==> msg == Terminated([]) && queue == None
      ensures handles == old(handles)
    {
      match queue
      case Some(l) =>
        msg := Active(l);
        queue := Some([]);
      case None =>
        msg := Terminated([]);
    }

    /** `write`: appends at the back while active, does nothing otherwise. */
    method Write(find: PitouFile)
      modifies this
      ensures old(queue).Some? ==> queue == Some(old(queue).value + [find])
      ensures old(queue).None? ==> queue == None
      ensures handles == old(handles)
    {
      match queue
      case Some(l) =>
        queue := Some(l + [find]);
      case None =>
    }

    /** `append_handle`: registers a spawned task at the back. */
    method AppendHandle(handle: Handle)
      modifies this
      ensures handles == old(handles) + [handle]
      ensures queue == old(queue)
    {
      handles := handles + [handle];
    }

    /** `split_off(0).into_iter().rev()`: empties the handle list and gives
      its handles newest first, the order both drains visit them in. */
    method TakeHandlesNewestFirst() returns (order: seq<Handle>)
      modifies this
      ensures order == Reversed(old(handles))
      ensures forall k :: 0 <= k < |order| ==> order[k] == old(handles)[|old(handles)| - 1 - k]
      ensures handles == [] && queue == old(queue)
    {
      var taken := handles;
      handles := [];
      order := [];
      var i := |taken|;
      while i > 0
        invariant 0 <= i <= |taken|
        invariant order == Reversed(taken[i..])
      {
        assert taken[i - 1..][1..] == taken[i..];
        order := order + [taken[i - 1]];
        i := i - 1;
      }
      assert taken[0..] == taken;
      forall k | 0 <= k < |order|
        ensures order[k] == taken[|taken| - 1 - k]
      {
        ReversedAt(taken, k);
      }
    }

    /** `abort`: calls `abort()` on every registered task, newest first, and
      forgets them; `aborted` is the order of those calls. */
    method Abort() returns (aborted: seq<Handle>)
      modifies this
      ensures aborted == Reversed(old(handles))
      ensures handles == [] && queue == old(queue)
    {
      aborted := TakeHandlesNewestFirst();
    }

    /** `wait_for_all_ops`: awaits every registered task, newest first, and
      forgets them; `joined` is the order of those awaits. */
    method WaitForAllOps() returns (joined: seq<Handle>)
      modifies this
      ensures joined == Reversed(old(handles))
      ensures handles == [] && queue == old(queue)
    {
      joined := TakeHandlesNewestFirst();
    }
  }

  /** Two reads in a row: the first drains everything written so far, the
      second (with no write between) gets an empty active batch. */
  method ReadTwice(s: Stream) returns (first: SearchMsg, second: SearchMsg)
    modifies s
    ensures old(s.queue).Some? ==> first == Active(old(s.queue).value) && second == Active([])
    ensures old(s.queue).None? ==> first == Terminated([]) && second == Terminated([])
    ensures s.queue == (if old(s.queue).Some? then Some([]) else None)
  {
    first := s.Read();
    second := s.Read();
  }

  /** The synchronous part of `search`: when the filter is all-filtered it
      returns without touching the session; otherwise it opens a fresh
      session. `started` tells whether the traversal task is then spawned. */
  method Search(s: Stream, options: SearchOptions) returns (started: bool)
    modifies s
    ensures started <==> !AllFiltered(options.filter)
    ensures !started ==> s.queue == old(s.queue)
    ensures started ==> s.queue == Some([])
    ensures s.handles == old(s.handles)
  {
    var (variables, directory) := FromSearchOptions(options);
    if AllFiltered(variables.filter) {
      return false;
    }
    s.BeginStream();
    started := true;
  }

  /** What the spawned task does once the root traversal returns: it ends the
      session and, when `hardware_accelerate` is set, then awaits every
      registered task; `joined` is the order of those awaits. */
  method FinishSearch(s: Stream, hardwareAccelerate: bool) returns (joined: seq<Handle>)
    modifies s
    ensures s.queue == None
    ensures hardwareAccelerate ==> joined == Reversed(old(s.handles)) && s.handles == []
    ensures !hardwareAccelerate ==> joined == [] && s.handles == old(s.handles)
  {
    s.TerminateStream();
    joined := [];
    if hardwareAccelerate {
      joined := s.WaitForAllOps();
    }
  }
}
