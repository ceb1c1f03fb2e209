/** Where the contents of a snapshot come from, after any history of runs. */
module Provenance {
  import opened Bytes
  import opened ArchiveFile
  import opened ChunkStore
  import opened Snapshots
  import B = Backup

  function EventInputs(events: seq<B.Event>): seq<Input>
  {
    if events == [] then [] else EventInputs(Front(events)) + Last(events).run.inputs
  }

  /** Everything any run of a history found. */
  function AllInputs(first: Run, events: seq<B.Event>): seq<Input> { first.inputs + EventInputs(events) }

  /** Record `r` of name `n` is what some readable input of that name read to. */
  ghost predicate From(inputs: seq<Input>, n: bytes, r: Recorded)
  {
    exists i :: i in inputs && i.name == n && Readable(i) && r == Recorded(i.attributes, DataOf(i))
  }

  ghost predicate AllFrom(inputs: seq<Input>, snap: Snapshot) { forall n :: n in snap ==> From(inputs, n, snap[n]) }

  lemma FromMore(inputs: seq<Input>, more: seq<Input>, n: bytes, r: Recorded)
    requires From(inputs, n, r) || From(more, n, r)
    ensures From(inputs + more, n, r)
  {
    if From(inputs, n, r) {
      var i :| i in inputs && i.name == n && Readable(i) && r == Recorded(i.attributes, DataOf(i));
      assert i in inputs + more;
    } else {
      var i :| i in more && i.name == n && Readable(i) && r == Recorded(i.attributes, DataOf(i));
      assert i in inputs + more;
    }
  }

  lemma MoreFrom(inputs: seq<Input>, more: seq<Input>, snap: Snapshot)
    requires AllFrom(inputs, snap)
    ensures AllFrom(inputs + more, snap)
  {
    hide From;
    forall n | n in snap ensures From(inputs + more, n, snap[n]) {
      FromMore(inputs, more, n, snap[n]);
    }
  }

  lemma TookFrom(before: Snapshot, run: Run, after: Snapshot, inputs: seq<Input>)
    requires Took(before, run, after) && AllFrom(inputs, before)
    ensures AllFrom(inputs + run.inputs, after)
  {
    forall n | n in after ensures From(inputs + run.inputs, n, after[n]) {
      if i :| i in run.inputs && i.name == n {
        assert InputTaken(before, i, after);
        assert (n in before && after[n] == before[n]) || From(run.inputs, n, after[n]);
      } else {
        assert OtherTaken(before, run, after, n);
      }
      FromMore(inputs, run.inputs, n, after[n]);
    }
  }

  lemma {:induction false} LeadsFrom(start: Snapshot, events: seq<B.Event>, results: seq<B.Result>, end: Snapshot, inputs: seq<Input>)
    requires |events| == |results| && B.Leads(start, events, results, end) && AllFrom(inputs, start)
    ensures AllFrom(inputs + EventInputs(events), end)
    decreases |events|
  {
    hide AllFrom, Took;
    if events == [] {
      assert inputs + [] == inputs;
    } else {
      var e := Last(events);
      var mid :| B.Leads(start, Front(events), Front(results), mid) && B.Follows(mid, e, Last(results), end);
      LeadsFrom(start, Front(events), Front(results), mid, inputs);
      var known := inputs + EventInputs(Front(events));
      assert known + e.run.inputs == inputs + EventInputs(events);
      if end == mid {
        MoreFrom(known, e.run.inputs, end);
      } else {
        TookFrom(mid, e.run, end, known);
      }
    }
  }

  /** After any history, crashes and failures included, every record is what some readable input
      of some run read to, under that name: nothing is made up or mixed. */
  lemma HistoryFrom(first: Run, events: seq<B.Event>, results: seq<B.Result>, end: Snapshot)
    requires |events| == |results| && B.Outcome(first, events, results, end)
    ensures AllFrom(AllInputs(first, events), end)
  {
    hide Took, From;
    var start :| Took(map[], first, start) && B.Leads(start, events, results, end);
    TookFrom(map[], first, start, []);
    assert [] + first.inputs == first.inputs;
    LeadsFrom(start, events, results, end, first.inputs);
  }

  /** Regular file `i` has the name, attributes and size that `j` was recorded with. */
  predicate AlikeOutside(i: Input, j: Input)
  {
    i.source.Regular? && i.name == j.name && i.attributes == j.attributes && i.source.stat == Some(|DataOf(j)|)
  }

  /** Among these inputs, size and attributes tell contents apart. */
  ghost predicate Telling(inputs: seq<Input>)
  {
    forall i, j :: i in inputs && j in inputs && AlikeOutside(i, j) ==> i.source.data == DataOf(j)
  }

  lemma TakenExactly(mid: Snapshot, i: Input, end: Snapshot, inputs: seq<Input>)
    requires InputTaken(mid, i, end) && AllFrom(inputs, mid) && Telling(inputs) && i in inputs && i.source.Regular? && Readable(i)
    ensures i.name in end && end[i.name] == Recorded(i.attributes, i.source.data)
  {
    if i.name in mid && mid[i.name].attributes == i.attributes && i.source.stat.value == |mid[i.name].content| {
      var j :| j in inputs && j.name == i.name && Readable(j) && mid[i.name] == Recorded(j.attributes, DataOf(j));
    }
  }

  /** After a last run that did not fail, and if size and attributes tell contents apart, every
      readable regular file of that run is in the snapshot with exactly the bytes it has now. */
  lemma LastRunIsThere(first: Run, events: seq<B.Event>, results: seq<B.Result>, end: Snapshot, i: Input)
    requires |events| == |results| && B.Outcome(first, events, results, end) && events != []
    requires Last(events).Finished? && Last(results) != B.Failed && Telling(AllInputs(first, events))
    requires i in Last(events).run.inputs && i.source.Regular? && Readable(i)
    ensures i.name in end && end[i.name] == Recorded(i.attributes, i.source.data)
  {
    hide Took, AllFrom, Telling, InputTaken;
    var start :| Took(map[], first, start) && B.Leads(start, events, results, end);
    var mid :| B.Leads(start, Front(events), Front(results), mid) && B.Follows(mid, Last(events), Last(results), end);
    HistoryFrom(first, Front(events), Front(results), mid);
    var known := AllInputs(first, Front(events));
    assert known + Last(events).run.inputs == AllInputs(first, events);
    MoreFrom(known, Last(events).run.inputs, mid);
    TookInput(mid, Last(events).run, end, i);
    TakenExactly(mid, i, end, AllInputs(first, events));
  }

  lemma TookInput(before: Snapshot, run: Run, after: Snapshot, i: Input)
    requires Took(before, run, after) && i in run.inputs
    ensures InputTaken(before, i, after)
  {
  }

  /** The same for an archive that was only created. */
  lemma FirstRunIsThere(first: Run, end: Snapshot, i: Input)
    requires B.Outcome(first, [], [], end) && i in first.inputs && Readable(i)
    ensures i.name in end && end[i.name] == Recorded(i.attributes, DataOf(i))
  {
    hide Took;
    var start :| Took(map[], first, start) && B.Leads(start, [], [], end);
    TookInput(map[], first, start, i);
  }
}
