/** The hold-off for nodes whose sandboxes were just evacuated because of missed heartbeats. */
module Quarantine {
  import opened Records

  /** How many heartbeats a node must send after an eviction before it may be chosen again. */
  const QUARANTINE_HEARTBEATS: nat := 3

  /** A count of a node that is held off: at the third heartbeat it is released. */
  type Count = n: nat | n < QUARANTINE_HEARTBEATS

  /** Heartbeats noted since the last mark, for the nodes held off. */
  type Counts = map<string, Count>

  function Mark(q: Counts, id: string): Counts {
    if id == "" then q else q[id := 0]
  }

  function Note(q: Counts, id: string): Counts {
    if id == "" || id !in q then q
    else if q[id] + 1 >= QUARANTINE_HEARTBEATS then q - {id}
    else q[id := q[id] + 1]
  }

  class Tracker {
    var nodes: Counts

    constructor ()
      ensures nodes == map[]
    {
      nodes := map[];
    }

    /** Starts (or resets) the hold-off of a node. */
    method MarkEvicted(id: string)
      modifies this
      ensures nodes == Mark(old(nodes), id)
    {
      if id == "" {
        return;
      }
      nodes := nodes[id := 0];
    }

    /** Records a heartbeat of a node. */
    method NoteHeartbeat(id: string)
      modifies this
      ensures nodes == Note(old(nodes), id)
    {
      if id == "" {
        return;
      }
      if id !in nodes {
        return;
      }
      var n := nodes[id] as nat + 1;
      if n >= QUARANTINE_HEARTBEATS {
        nodes := nodes - {id};
        return;
      }
      nodes := nodes[id := n];
    }

    /** A copy of the identifiers held off. */
    method Excluded() returns (ids: set<string>)
      ensures ids == nodes.Keys
    {
      ids := {};
      var rest := nodes.Keys;
      while rest != {}
        invariant ids + rest == nodes.Keys
        decreases rest
      {
        var id :| id in rest;
        ids := ids + {id};
        rest := rest - {id};
      }
    }

    /** Whether a node is held off.  For a tracker that started with some counts and went through some
        events, the answer is the one the history gives. */
    method Contains(id: string, ghost start: Counts, ghost events: seq<Event>) returns (held: bool)
      requires nodes == Run(start, events)
      ensures held <==> id != "" && HeldOff(start, events, id)
    {
      if id == "" {
        return false;
      }
      RunMeaning(start, events, id);
      return id in nodes;
    }
  }

  // ---------------------------------------------------------------- whole runs

  datatype Event = Marked(id: string) | Noted(id: string)

  function Step(q: Counts, e: Event): Counts {
    match e
    case Marked(id) => Mark(q, id)
    case Noted(id) => Note(q, id)
  }

  function Run(q: Counts, events: seq<Event>): Counts {
    if |events| == 0 then q else Step(Run(q, events[..|events| - 1]), events[|events| - 1])
  }

  /** The number of heartbeats of a node since it was last marked, reading the events alone; for a node
      not marked in them they count on from what the start held, and there is nothing if that held
      nothing. */
  function NotesSinceMark(start: Counts, events: seq<Event>, id: string): Option<nat> {
    if |events| == 0 then (if id in start then Some(start[id]) else None)
    else
      var before := NotesSinceMark(start, events[..|events| - 1], id);
      match events[|events| - 1]
      case Marked(x) => if x == id then Some(0) else before
      case Noted(x) => if x == id && before.Some? then Some(before.value + 1) else before
  }

  /** Marked, in the events or before the start, and fewer than three heartbeats since. */
  predicate HeldOff(start: Counts, events: seq<Event>, id: string) {
    var notes := NotesSinceMark(start, events, id);
    notes.Some? && notes.value < 3
  }

  /** The counter map means what the history of events says: a node is excluded exactly when it was
      marked and fewer than three heartbeats were noted since its last mark. */
  lemma {:induction false} RunMeaning(start: Counts, events: seq<Event>, id: string)
    requires id != ""
    ensures id in Run(start, events) <==> HeldOff(start, events, id)
    ensures id in Run(start, events) ==> NotesSinceMark(start, events, id) == Some(Run(start, events)[id])
  {
    if |events| > 0 {
      RunMeaning(start, events[..|events| - 1], id);
    }
  }

  /** What the start held does not matter for a node that was marked since. */
  lemma {:induction false} MarkForgetsStart(start: Counts, start': Counts, events: seq<Event>, id: string)
    requires Marked(id) in events
    ensures NotesSinceMark(start, events, id) == NotesSinceMark(start', events, id)
    ensures NotesSinceMark(start, events, id).Some?
  {
    var init, last := events[..|events| - 1], events[|events| - 1];
    assert events == init + [last];
    if last != Marked(id) {
      MarkForgetsStart(start, start', init, id);
    }
  }

  lemma {:induction false} RunAppend(q: Counts, a: seq<Event>, b: seq<Event>)
    ensures Run(q, a + b) == Run(Run(q, a), b)
  {
    if |b| == 0 {
      assert a + b == a;
    } else {
      var last := |a + b| - 1;
      assert (a + b)[..last] == a + b[..|b| - 1];
      RunAppend(q, a, b[..|b| - 1]);
    }
  }
}
