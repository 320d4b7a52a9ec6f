// The analytics writer: buffer, insert, spool and replay (edge/crates/storage/src/lib.rs).
module AnalyticsWriter {
  type Event = int
  type FileName = string

  /** A line of a spool file; only a parsed one carries an event. */
  datatype Row = Parsed(event: Event) | Corrupt

  type Spool = map<FileName, seq<Row>>

  const BATCH_MAX_EVENTS: nat := 250
  const REPLAY_MAX_FILES: nat := 16

  /** What an insert does: everything, or a failure that may still have written some of the batch. */
  datatype Insert = Done | Failed(wrote: multiset<Event>)

  /** How the environment answers one flush: two attempts, the spool write and the file name it takes. */
  datatype FlushOutcome = FlushOutcome(first: Insert, second: Insert, spoolOk: bool, name: FileName)

  /** A listed file and how the environment answers its replay. */
  datatype Reply = Reply(name: FileName, readable: bool, insert: Insert, removed: bool)

  /**
   * The bookkeeping that the code does not do: events received, batches given up because the spool write
   * failed, events in files that a later file of the same name replaced, and events stored more than once;
   * with the number of times a file was replaced or an event stored again.
   */
  datatype Ledger = Ledger(
    received: multiset<Event>, abandoned: multiset<Event>, overwritten: multiset<Event>, duplicated: multiset<Event>,
    collisions: nat, repeats: nat)

  datatype State = State(buffer: seq<Event>, store: multiset<Event>, spool: Spool, ledger: Ledger, running: bool)

  const NOTHING: Ledger := Ledger(multiset{}, multiset{}, multiset{}, multiset{}, 0, 0)

  function New(spool: Spool): State {
    State([], multiset{}, spool, NOTHING, true)
  }

  // ----- Spool files -----

  function Readable(rows: seq<Row>): seq<Event> {
    if rows == [] then []
    else Readable(rows[..|rows| - 1]) + if rows[|rows| - 1].Parsed? then [rows[|rows| - 1].event] else []
  }

  function Rows(batch: seq<Event>): seq<Row> {
    if batch == [] then [] else Rows(batch[..|batch| - 1]) + [Parsed(batch[|batch| - 1])]
  }

  lemma {:induction false} ReadableRows(batch: seq<Event>)
    ensures Readable(Rows(batch)) == batch
  {
    if batch != [] {
      var init, last := batch[..|batch| - 1], batch[|batch| - 1];
      ReadableRows(init);
      assert (Rows(init) + [Parsed(last)])[..|Rows(init)|] == Rows(init);
    }
  }

  function Bag(rows: seq<Row>): multiset<Event> {
    multiset(Readable(rows))
  }

  /** A file of that name with events in it. */
  predicate Holds(spool: Spool, name: FileName) {
    name in spool && Readable(spool[name]) != []
  }

  // ----- Single effects -----

  /** A failed insert of a batch: whatever of it was written is in the store once more than accounted for. */
  function PartlyStored(s: State, batch: seq<Event>, wrote: multiset<Event>): State {
    var part := wrote * multiset(batch);
    s.(store := s.store + part,
       ledger := s.ledger.(duplicated := s.ledger.duplicated + part,
                           repeats := s.ledger.repeats + if part == multiset{} then 0 else 1))
  }

  function Stored(s: State, batch: seq<Event>): State {
    s.(store := s.store + multiset(batch))
  }

  /** A new spool file; one of the same name is replaced. */
  function Spooled(s: State, name: FileName, batch: seq<Event>): State {
    var lost := if name in s.spool then Bag(s.spool[name]) else multiset{};
    s.(spool := s.spool[name := Rows(batch)],
       ledger := s.ledger.(overwritten := s.ledger.overwritten + lost,
                           collisions := s.ledger.collisions + if Holds(s.spool, name) then 1 else 0))
  }

  function Abandoned(s: State, batch: seq<Event>): State {
    s.(ledger := s.ledger.(abandoned := s.ledger.abandoned + multiset(batch)))
  }

  function Flushed(s: State, o: FlushOutcome): State {
    if s.buffer == [] then s
    else
      var batch, s1 := s.buffer, s.(buffer := []);
      match o.first
      case Done => Stored(s1, batch)
      case Failed(w1) =>
        var s2 := PartlyStored(s1, batch, w1);
        match o.second
        case Done => Stored(s2, batch)
        case Failed(w2) =>
          var s3 := PartlyStored(s2, batch, w2);
          if o.spoolOk then Spooled(s3, o.name, batch) else Abandoned(s3, batch)
  }

  function Pushed(s: State, e: Event): State {
    s.(buffer := s.buffer + [e], ledger := s.ledger.(received := s.ledger.received + multiset{e}))
  }

  function Received(s: State, e: Event, o: FlushOutcome): State {
    var s1 := Pushed(s, e);
    if |s1.buffer| >= BATCH_MAX_EVENTS then Flushed(s1, o) else s1
  }

  /** One file of a replay, and whether the replay goes on. */
  function ReplayedFile(s: State, o: Reply): (State, bool) {
    var name := o.name;
    if !o.readable || name !in s.spool then (s, true)
    else
      var events := Readable(s.spool[name]);
      if events == [] then (if o.removed then s.(spool := s.spool - {name}) else s, true)
      else
        match o.insert
        case Done =>
          var stored := Stored(s, events);
          (if o.removed then stored.(spool := s.spool - {name})
           else stored.(ledger := s.ledger.(duplicated := s.ledger.duplicated + multiset(events),
                                            repeats := s.ledger.repeats + 1)),
           true)
        case Failed(w) => (PartlyStored(s, events, w), false)
  }

  function ReplayedFiles(s: State, files: seq<Reply>): State
    decreases files
  {
    if files == [] then s
    else
      var (s1, on) := ReplayedFile(s, files[0]);
      if on then ReplayedFiles(s1, files[1..]) else s1
  }

  function FirstFiles(xs: seq<Reply>): (r: seq<Reply>)
    ensures r <= xs && |r| <= 16 && (|xs| <= 16 ==> r == xs) && (|xs| > 16 ==> |r| == 16)
  {
    if |xs| > REPLAY_MAX_FILES then xs[..REPLAY_MAX_FILES] else xs
  }

  /** Draining the queue on shutdown: the k-th event's flush, if one is due, is answered by `answers(k)`. */
  function Drained(s: State, events: seq<Event>, answers: nat -> FlushOutcome): State {
    if events == [] then s
    else Received(Drained(s, events[..|events| - 1], answers), events[|events| - 1], answers(|events| - 1))
  }

  // ----- The writer as an object -----

  class Writer {
    var buffer: seq<Event>
    var store: multiset<Event>
    var spool: Spool
    ghost var ledger: Ledger
    var running: bool

    ghost function Value(): State
      reads this
    {
      State(buffer, store, spool, ledger, running)
    }

    constructor (spool: Spool)
      ensures Value() == New(spool)
    {
      buffer, store, running := [], multiset{}, true;
      this.spool := spool;
      ledger := NOTHING;
    }

    /** One insert of a batch; its answer comes from outside. */
    method TryInsert(batch: seq<Event>, answer: Insert) returns (ok: bool)
      modifies this`store, this`ledger
      ensures ok <==> answer.Done?
      ensures Value() == match answer
                         case Done => Stored(old(Value()), batch)
                         case Failed(w) => PartlyStored(old(Value()), batch, w)
    {
      match answer {
        case Done =>
          store := store + multiset(batch);
          ok := true;
        case Failed(w) =>
          ghost var after := PartlyStored(Value(), batch, w);
          store := store + w * multiset(batch);
          ledger := after.ledger;
          ok := false;
      }
    }

    method Flush(o: FlushOutcome)
      modifies this
      ensures Value() == Flushed(old(Value()), o)
    {
      if buffer == [] {
        return;
      }
      var events := buffer;
      buffer := [];
      var ok := TryInsert(events, o.first);
      if !ok {
        ok := TryInsert(events, o.second);
        if !ok {
          if o.spoolOk {
            ledger := Spooled(Value(), o.name, events).ledger;
            spool := spool[o.name := Rows(events)];
          } else {
            ledger := Abandoned(Value(), events).ledger;
          }
        }
      }
    }

    method Receive(e: Event, o: FlushOutcome)
      modifies this
      ensures Value() == Received(old(Value()), e, o)
    {
      ledger := Pushed(Value(), e).ledger;
      buffer := buffer + [e];
      if |buffer| >= BATCH_MAX_EVENTS {
        Flush(o);
      }
    }

    /** Corrupt rows are skipped. */
    method ParseRows(rows: seq<Row>) returns (events: seq<Event>)
      ensures events == Readable(rows)
    {
      events := [];
      for i := 0 to |rows|
        invariant events == Readable(rows[..i])
      {
        assert rows[..i + 1][..i] == rows[..i];
        if rows[i].Parsed? {
          events := events + [rows[i].event];
        }
      }
      assert rows[..|rows|] == rows;
    }

    /** `files` is the sorted listing of the spool directory. */
    method Replay(files: seq<Reply>)
      modifies this
      ensures Value() == ReplayedFiles(old(Value()), FirstFiles(files))
    {
      var taken := FirstFiles(files);
      var i := 0;
      assert taken[0..] == taken;
      while i < |taken|
        invariant 0 <= i <= |taken|
        invariant ReplayedFiles(old(Value()), taken) == ReplayedFiles(Value(), taken[i..])
      {
        ghost var before := Value();
        var o := taken[i];
        assert taken[i..][1..] == taken[i + 1..];
        i := i + 1;
        if o.readable && o.name in spool {
          var events := ParseRows(spool[o.name]);
          if events == [] {
            if o.removed { spool := spool - {o.name}; }
          } else {
            var ok := TryInsert(events, o.insert);
            if !ok {
              assert Value() == ReplayedFile(before, o).0;
              return;
            }
            if o.removed {
              spool := spool - {o.name};
            } else {
              ledger := ReplayedFile(before, o).0.ledger;
            }
          }
        }
        assert Value() == ReplayedFile(before, o).0;
      }
    }

    method Shutdown(pending: seq<Event>, answers: nat -> FlushOutcome, final: FlushOutcome)
      modifies this
      ensures Value() == Stopped(Flushed(Drained(old(Value()), pending, answers), final))
      ensures !running && buffer == []
    {
      for i := 0 to |pending|
        invariant Value() == Drained(old(Value()), pending[..i], answers)
      {
        Receive(pending[i], answers(i));
        assert pending[..i + 1][..i] == pending[..i];
      }
      assert pending[..|pending|] == pending;
      Flush(final);
      running := false;
    }
  }

  function Stopped(s: State): State {
    s.(running := false)
  }

  // ----- Where a batch goes -----

  /** A flush empties the buffer; the first attempt that succeeds is the last, and stores the batch. */
  lemma FlushStores(s: State, o: FlushOutcome)
    requires s.buffer != []
    ensures var t, batch := Flushed(s, o), multiset(s.buffer);
            && t.buffer == [] && t.running == s.running
            && t.store == if o.first.Done? then s.store + batch
                          else s.store + Written(o.first, batch) + Written(o.second, batch)
  {
  }

  /** Only when both attempts fail is the batch spooled, if that works, and no other file is touched. */
  lemma FlushSpools(s: State, o: FlushOutcome)
    requires s.buffer != []
    ensures var t := Flushed(s, o);
            if o.first.Failed? && o.second.Failed? && o.spoolOk then Replaced(s.spool, t.spool, o.name, s.buffer)
            else t.spool == s.spool
  {
    SpoolReplaced(s.spool, o.name, s.buffer);
  }

  /** One file is new, with these events, and the others are as they were. */
  predicate Replaced(before: Spool, after: Spool, name: FileName, batch: seq<Event>) {
    name in after && Readable(after[name]) == batch && after - {name} == before - {name}
  }

  lemma SpoolReplaced(spool: Spool, name: FileName, batch: seq<Event>)
    ensures Replaced(spool, spool[name := Rows(batch)], name, batch)
  {
    ReadableRows(batch);
    OthersKept(spool, name, Rows(batch));
  }

  /** What one attempt leaves in the store: the batch, or the part of it that a failure still wrote. */
  function Written(answer: Insert, batch: multiset<Event>): multiset<Event> {
    match answer
    case Done => batch
    case Failed(wrote) => wrote * batch
  }

  lemma OthersKept(spool: Spool, name: FileName, rows: seq<Row>)
    ensures spool[name := rows] - {name} == spool - {name}
  {
  }

  /** Below the batch size an event only joins the buffer; at it the whole buffer goes. */
  lemma FlushWhenFull(s: State, e: Event, o: FlushOutcome)
    ensures var t := Received(s, e, o);
            if |s.buffer| + 1 < 250 then t.buffer == s.buffer + [e] && t.store == s.store && t.spool == s.spool
            else t == Flushed(Pushed(s, e), o) && t.buffer == []
  {
  }

  /** Readable, listed, stored and removed: a replay of the file that goes well. */
  predicate Smooth(spool: Spool, o: Reply) {
    o.readable && o.name in spool && o.insert.Done? && o.removed
  }

  ghost predicate AllSmooth(spool: Spool, files: seq<Reply>) {
    && (forall k :: 0 <= k < |files| ==> Smooth(spool, files[k]))
    && (forall i, j :: 0 <= i < j < |files| ==> files[i].name != files[j].name)
  }

  function Names(files: seq<Reply>): set<FileName> {
    set k | 0 <= k < |files| :: files[k].name
  }

  /** The events in the listed files. */
  function Restored(spool: Spool, files: seq<Reply>): multiset<Event> {
    if files == [] then multiset{}
    else (if files[0].name in spool then Bag(spool[files[0].name]) else multiset{}) + Restored(spool, files[1..])
  }

  lemma {:induction false} RestoredWithout(spool: Spool, files: seq<Reply>, name: FileName)
    requires forall k :: 0 <= k < |files| ==> files[k].name != name
    ensures Restored(spool - {name}, files) == Restored(spool, files)
  {
    if files != [] {
      RestoredWithout(spool, files[1..], name);
    }
  }

  lemma SmoothStep(s: State, o: Reply)
    requires Smooth(s.spool, o)
    ensures var (t, on) := ReplayedFile(s, o);
            on && t.spool == s.spool - {o.name} && t.store == s.store + Bag(s.spool[o.name]) && t.buffer == s.buffer
  {
  }

  lemma SmoothRest(spool: Spool, files: seq<Reply>)
    requires files != [] && AllSmooth(spool, files)
    ensures AllSmooth(spool - {files[0].name}, files[1..])
    ensures Names(files) == {files[0].name} + Names(files[1..])
  {
    var rest := files[1..];
    forall k | 0 <= k < |rest|
      ensures Smooth(spool - {files[0].name}, rest[k])
    {
      assert rest[k] == files[k + 1] && Smooth(spool, files[k + 1]);
    }
    forall n | n in Names(files)
      ensures n in {files[0].name} + Names(rest)
    {
      var k :| 0 <= k < |files| && files[k].name == n;
      if k > 0 { assert rest[k - 1] == files[k]; }
    }
    forall n | n in Names(rest)
      ensures n in Names(files)
    {
      var k :| 0 <= k < |rest| && rest[k].name == n;
      assert files[k + 1] == rest[k];
    }
  }

  /** A replay that goes well stores the events of every listed file once more and removes the files, and no others. */
  lemma {:induction false} ReplayRestores(s: State, files: seq<Reply>)
    requires AllSmooth(s.spool, files)
    ensures var t := ReplayedFiles(s, files);
            && t.spool == s.spool - Names(files)
            && t.store == s.store + Restored(s.spool, files)
            && t.buffer == s.buffer
    decreases files
  {
    if files == [] {
      assert Names(files) == {};
    } else {
      var o := files[0];
      assert Smooth(s.spool, o);
      SmoothStep(s, o);
      SmoothRest(s.spool, files);
      var s1 := ReplayedFile(s, o).0;
      ReplayRestores(s1, files[1..]);
      RestoredWithout(s.spool, files[1..], o.name);
      assert s.spool - Names(files) == s.spool - {o.name} - Names(files[1..]);
    }
  }

  /** The first file that cannot be stored ends the replay: it and the files after it stay. */
  lemma {:induction false} ReplayStops(s: State, files: seq<Reply>, k: nat)
    requires k < |files| && AllSmooth(s.spool, files[..k])
    requires files[k].readable && Holds(s.spool, files[k].name) && files[k].insert.Failed?
    requires forall j :: 0 <= j < k ==> files[j].name != files[k].name
    ensures ReplayedFiles(s, files).spool == s.spool - Names(files[..k])
    decreases k
  {
    if k == 0 {
      assert Names(files[..0]) == {};
    } else {
      var o := files[0];
      assert files[..k][0] == o && Smooth(s.spool, files[..k][0]);
      SmoothStep(s, o);
      SmoothRest(s.spool, files[..k]);
      assert files[..k][1..] == files[1..][..k - 1];
      assert files[1..][k - 1] == files[k];
      ReplayStops(ReplayedFile(s, o).0, files[1..], k - 1);
      assert s.spool - Names(files[..k]) == s.spool - {o.name} - Names(files[1..][..k - 1]);
    }
  }

  // ----- Conservation -----

  ghost function Sum(bags: map<FileName, multiset<Event>>): multiset<Event> {
    if bags == map[] then multiset{}
    else var name :| name in bags; bags[name] + Sum(bags - {name})
  }

  lemma {:induction false} SumAt(bags: map<FileName, multiset<Event>>, name: FileName)
    requires name in bags
    ensures Sum(bags) == bags[name] + Sum(bags - {name})
    decreases |bags|
  {
    var picked :| picked in bags && Sum(bags) == bags[picked] + Sum(bags - {picked});
    if picked != name {
      SumAt(bags - {picked}, name);
      SumAt(bags - {name}, picked);
      assert bags - {picked} - {name} == bags - {name} - {picked};
    }
  }

  lemma SumPut(bags: map<FileName, multiset<Event>>, name: FileName, bag: multiset<Event>)
    ensures Sum(bags[name := bag]) + (if name in bags then bags[name] else multiset{}) == Sum(bags) + bag
  {
    var next := bags[name := bag];
    SumAt(next, name);
    if name in bags {
      SumAt(bags, name);
      assert next - {name} == bags - {name};
    } else {
      assert next - {name} == bags;
    }
  }

  function Bags(spool: Spool): map<FileName, multiset<Event>> {
    map name | name in spool :: Bag(spool[name])
  }

  /** All events in spool files, file by file. */
  ghost function InSpool(spool: Spool): multiset<Event> {
    Sum(Bags(spool))
  }

  lemma InSpoolAt(spool: Spool, name: FileName)
    requires name in spool
    ensures InSpool(spool) == Bag(spool[name]) + InSpool(spool - {name})
  {
    SumAt(Bags(spool), name);
    assert Bags(spool - {name}) == Bags(spool) - {name};
  }

  lemma InSpoolPut(spool: Spool, name: FileName, rows: seq<Row>)
    ensures InSpool(spool[name := rows]) + (if name in spool then Bag(spool[name]) else multiset{}) ==
            InSpool(spool) + Bag(rows)
  {
    SumPut(Bags(spool), name, Bag(rows));
    BagsPut(spool, name, rows);
  }

  lemma BagsPut(spool: Spool, name: FileName, rows: seq<Row>)
    ensures Bags(spool[name := rows]) == Bags(spool)[name := Bag(rows)]
  {
  }

  /** Everything received, and every repetition, is somewhere: nothing disappears unaccounted. */
  ghost predicate Balanced(s: State, origin: multiset<Event>) {
    forall e: Event ::
      origin[e] + s.ledger.received[e] + s.ledger.duplicated[e] ==
      multiset(s.buffer)[e] + s.store[e] + InSpool(s.spool)[e] + s.ledger.abandoned[e] + s.ledger.overwritten[e]
  }

  ghost predicate Sound(s: State, origin: multiset<Event>) {
    && Balanced(s, origin)
    && (s.ledger.overwritten == multiset{} <==> s.ledger.collisions == 0)
    && (s.ledger.duplicated == multiset{} <==> s.ledger.repeats == 0)
  }

  lemma PartlyStoredSound(s: State, origin: multiset<Event>, batch: seq<Event>, w: multiset<Event>)
    requires Sound(s, origin)
    ensures Sound(PartlyStored(s, batch, w), origin)
  {
  }

  /** The state while a batch taken from the buffer is in hand. */
  ghost predicate SoundWith(s: State, origin: multiset<Event>, batch: seq<Event>) {
    batch != [] && s.buffer == [] && Sound(s.(buffer := batch), origin)
  }

  lemma PartlySoundWith(s: State, origin: multiset<Event>, batch: seq<Event>, w: multiset<Event>)
    requires SoundWith(s, origin, batch)
    ensures SoundWith(PartlyStored(s, batch, w), origin, batch)
  {
    PartlyStoredSound(s.(buffer := batch), origin, batch, w);
  }

  lemma BatchPlaced(s: State, origin: multiset<Event>, batch: seq<Event>, name: FileName)
    requires SoundWith(s, origin, batch)
    ensures Sound(Stored(s, batch), origin) && Sound(Abandoned(s, batch), origin)
    ensures Sound(Spooled(s, name, batch), origin)
  {
    BatchStored(s, origin, batch);
    BatchSpooled(s, origin, batch, name);
  }

  lemma BatchStored(s: State, origin: multiset<Event>, batch: seq<Event>)
    requires SoundWith(s, origin, batch)
    ensures Sound(Stored(s, batch), origin) && Sound(Abandoned(s, batch), origin)
  {
  }

  lemma BatchSpooled(s: State, origin: multiset<Event>, batch: seq<Event>, name: FileName)
    requires SoundWith(s, origin, batch)
    ensures Sound(Spooled(s, name, batch), origin)
  {
    InSpoolPut(s.spool, name, Rows(batch));
    ReadableRows(batch);
    var s' := Spooled(s, name, batch);
    var lost := if name in s.spool then Bag(s.spool[name]) else multiset{};
    forall e: Event
      ensures origin[e] + s'.ledger.received[e] + s'.ledger.duplicated[e] ==
              multiset(s'.buffer)[e] + s'.store[e] + InSpool(s'.spool)[e] + s'.ledger.abandoned[e] + s'.ledger.overwritten[e]
    {
      assert (InSpool(s'.spool) + lost)[e] == (InSpool(s.spool) + multiset(batch))[e];
    }
    if Holds(s.spool, name) {
      NonEmptyBag(Readable(s.spool[name]));
    }
  }

  lemma NonEmptyBag(xs: seq<Event>)
    requires xs != []
    ensures multiset(xs) != multiset{}
  {
    assert xs[0] in multiset(xs);
  }

  lemma FlushSound(s: State, origin: multiset<Event>, o: FlushOutcome)
    requires Sound(s, origin)
    ensures Sound(Flushed(s, o), origin) && Flushed(s, o).buffer == []
    ensures Flushed(s, o).running == s.running && Flushed(s, o).ledger.received == s.ledger.received
  {
    if s.buffer != [] {
      var batch, s1 := s.buffer, s.(buffer := []);
      assert s1.(buffer := batch) == s;
      BatchPlaced(s1, origin, batch, o.name);
      if o.first.Failed? {
        var s2 := PartlyStored(s1, batch, o.first.wrote);
        PartlySoundWith(s1, origin, batch, o.first.wrote);
        BatchPlaced(s2, origin, batch, o.name);
        if o.second.Failed? {
          PartlySoundWith(s2, origin, batch, o.second.wrote);
          BatchPlaced(PartlyStored(s2, batch, o.second.wrote), origin, batch, o.name);
        }
      }
    }
  }

  lemma ReceiveSound(s: State, origin: multiset<Event>, e: Event, o: FlushOutcome)
    requires Sound(s, origin) && |s.buffer| < BATCH_MAX_EVENTS
    ensures Sound(Received(s, e, o), origin) && |Received(s, e, o).buffer| < BATCH_MAX_EVENTS
    ensures Received(s, e, o).running == s.running
    ensures Received(s, e, o).ledger.received == s.ledger.received + multiset{e}
  {
    PushSound(s, origin, e);
    FlushSound(Pushed(s, e), origin, o);
  }

  lemma PushSound(s: State, origin: multiset<Event>, e: Event)
    requires Sound(s, origin)
    ensures Sound(Pushed(s, e), origin) && Pushed(s, e).ledger.received == s.ledger.received + multiset{e}
  {
    assert multiset(s.buffer + [e]) == multiset(s.buffer) + multiset{e};
  }

  lemma ReplayFileSound(s: State, origin: multiset<Event>, o: Reply)
    requires Sound(s, origin)
    ensures var s' := ReplayedFile(s, o).0;
            Sound(s', origin) && s'.buffer == s.buffer && s'.running == s.running && s'.ledger.received == s.ledger.received
  {
    if o.readable && o.name in s.spool {
      var events := Readable(s.spool[o.name]);
      InSpoolAt(s.spool, o.name);
      if events != [] {
        NonEmptyBag(events);
      }
      if o.insert.Failed? {
        PartlyStoredSound(s, origin, events, o.insert.wrote);
      }
    }
  }

  lemma {:induction false} ReplaySound(s: State, origin: multiset<Event>, files: seq<Reply>)
    requires Sound(s, origin)
    ensures var s' := ReplayedFiles(s, files);
            Sound(s', origin) && s'.buffer == s.buffer && s'.running == s.running && s'.ledger.received == s.ledger.received
    decreases files
  {
    if files != [] {
      ReplayFileSound(s, origin, files[0]);
      var (s1, on) := ReplayedFile(s, files[0]);
      if on {
        ReplaySound(s1, origin, files[1..]);
      }
    }
  }

  lemma {:induction false} DrainSound(s: State, origin: multiset<Event>, events: seq<Event>, answers: nat -> FlushOutcome)
    requires Sound(s, origin) && |s.buffer| < BATCH_MAX_EVENTS
    ensures var s' := Drained(s, events, answers);
            Sound(s', origin) && |s'.buffer| < BATCH_MAX_EVENTS
  {
    if events != [] {
      var init, last := events[..|events| - 1], events[|events| - 1];
      DrainSound(s, origin, init, answers);
      ReceiveSound(Drained(s, init, answers), origin, last, answers(|events| - 1));
    }
  }

  lemma {:induction false} DrainReceives(s: State, events: seq<Event>, answers: nat -> FlushOutcome)
    ensures Drained(s, events, answers).ledger.received == s.ledger.received + multiset(events)
  {
    if events != [] {
      var init, last := events[..|events| - 1], events[|events| - 1];
      DrainReceives(s, init, answers);
      ReceiveCounts(Drained(s, init, answers), last, answers(|events| - 1));
      BagSnoc(events);
    }
  }

  lemma BagSnoc(xs: seq<Event>)
    requires xs != []
    ensures multiset(xs) == multiset(xs[..|xs| - 1]) + multiset{xs[|xs| - 1]}
  {
    assert xs == xs[..|xs| - 1] + [xs[|xs| - 1]];
  }

  lemma ReceiveCounts(s: State, e: Event, o: FlushOutcome)
    ensures Received(s, e, o).ledger.received == s.ledger.received + multiset{e}
  {
  }

  // ----- Runs of the select loop -----

  datatype Step =
    | Arrive(event: Event, flush: FlushOutcome)
    | Tick(files: seq<Reply>, flush: FlushOutcome)
    | Close(flush: FlushOutcome)
    | ShutDown(pending: seq<Event>, drains: nat -> FlushOutcome, flush: FlushOutcome)

  function Taken(s: State, step: Step): State {
    if !s.running then s
    else
      match step
      case Arrive(e, o) => Received(s, e, o)
      case Tick(files, o) => Flushed(ReplayedFiles(s, FirstFiles(files)), o)
      case Close(o) => Stopped(Flushed(s, o))
      case ShutDown(pending, drains, o) => Stopped(Flushed(Drained(s, pending, drains), o))
  }

  function After(spool: Spool, run: seq<Step>): State {
    if run == [] then New(spool) else Taken(After(spool, run[..|run| - 1]), run[|run| - 1])
  }

  /** The events a run takes off the channel. */
  function Incoming(spool: Spool, run: seq<Step>): multiset<Event> {
    if run == [] then multiset{}
    else
      var before, last := run[..|run| - 1], run[|run| - 1];
      Incoming(spool, before) +
      if !After(spool, before).running then multiset{}
      else
        match last
        case Arrive(e, _) => multiset{e}
        case Tick(_, _) => multiset{}
        case Close(_) => multiset{}
        case ShutDown(pending, _, _) => multiset(pending)
  }

  lemma StepSound(s: State, origin: multiset<Event>, step: Step)
    requires Sound(s, origin) && (if s.running then |s.buffer| < BATCH_MAX_EVENTS else s.buffer == [])
    ensures var s' := Taken(s, step);
            Sound(s', origin) && if s'.running then |s'.buffer| < BATCH_MAX_EVENTS else s'.buffer == []
    ensures s.running ==>
              Taken(s, step).ledger.received ==
              s.ledger.received + match step
                                  case Arrive(e, _) => multiset{e}
                                  case Tick(_, _) => multiset{}
                                  case Close(_) => multiset{}
                                  case ShutDown(pending, _, _) => multiset(pending)
  {
    if s.running {
      match step {
        case Arrive(e, o) =>
          ReceiveSound(s, origin, e, o);
        case Tick(files, o) =>
          ReplaySound(s, origin, FirstFiles(files));
          FlushSound(ReplayedFiles(s, FirstFiles(files)), origin, o);
        case Close(o) =>
          FlushSound(s, origin, o);
        case ShutDown(pending, drains, o) =>
          DrainSound(s, origin, pending, drains);
          DrainReceives(s, pending, drains);
          FlushSound(Drained(s, pending, drains), origin, o);
      }
    }
  }

  /**
   * In every run, whatever the inserts, spool writes and removals answer: each event taken off the channel
   * (and each one found in the spool at the start) is in the buffer, the store, a spool file, a batch whose
   * spool write failed, or a file that a later one replaced, and every surplus copy is a known repetition.
   * Between steps the buffer holds fewer than 250 events; at exit it is empty.
   */
  lemma NothingIsLostSilently(spool: Spool, run: seq<Step>)
    ensures var s := After(spool, run);
            && s.ledger.received == Incoming(spool, run)
            && InSpool(spool) + Incoming(spool, run) + s.ledger.duplicated ==
               multiset(s.buffer) + s.store + InSpool(s.spool) + s.ledger.abandoned + s.ledger.overwritten
            && (s.ledger.overwritten == multiset{} <==> s.ledger.collisions == 0)
            && (s.ledger.duplicated == multiset{} <==> s.ledger.repeats == 0)
            && (if s.running then |s.buffer| < BATCH_MAX_EVENTS else s.buffer == [])
  {
    RunSound(spool, run);
    BalancedBags(After(spool, run), InSpool(spool));
  }

  lemma BalancedBags(s: State, origin: multiset<Event>)
    requires Balanced(s, origin)
    ensures origin + s.ledger.received + s.ledger.duplicated ==
            multiset(s.buffer) + s.store + InSpool(s.spool) + s.ledger.abandoned + s.ledger.overwritten
  {
    var a := origin + s.ledger.received + s.ledger.duplicated;
    var b := multiset(s.buffer) + s.store + InSpool(s.spool) + s.ledger.abandoned + s.ledger.overwritten;
    forall e: Event
      ensures a[e] == b[e]
    {
    }
  }

  lemma {:induction false} RunSound(spool: Spool, run: seq<Step>)
    ensures var s := After(spool, run);
            && Sound(s, InSpool(spool)) && s.ledger.received == Incoming(spool, run)
            && (if s.running then |s.buffer| < BATCH_MAX_EVENTS else s.buffer == [])
  {
    if run != [] {
      RunSound(spool, run[..|run| - 1]);
      StepSound(After(spool, run[..|run| - 1]), InSpool(spool), run[|run| - 1]);
    }
  }

  // ----- When nothing is stored twice or replaced -----

  /** A failed insert without effect. */
  predicate Clean(i: Insert) {
    i.Failed? ==> i.wrote == multiset{}
  }

  predicate CleanFlush(o: FlushOutcome) {
    Clean(o.first) && Clean(o.second)
  }

  predicate CleanReplies(files: seq<Reply>) {
    forall k :: 0 <= k < |files| ==> Clean(files[k].insert) && files[k].removed
  }

  ghost predicate CleanStep(step: Step) {
    match step
    case Arrive(_, o) => CleanFlush(o)
    case Tick(files, o) => CleanReplies(files) && CleanFlush(o)
    case Close(o) => CleanFlush(o)
    case ShutDown(pending, drains, o) => CleanFlush(o) && forall k :: 0 <= k < |pending| ==> CleanFlush(drains(k))
  }

  lemma {:induction false} CleanReplayRepeats(s: State, files: seq<Reply>)
    requires CleanReplies(files)
    ensures ReplayedFiles(s, files).ledger.repeats == s.ledger.repeats
    decreases files
  {
    if files != [] {
      var (s1, on) := ReplayedFile(s, files[0]);
      assert Clean(files[0].insert);
      if on {
        CleanReplayRepeats(s1, files[1..]);
      }
    }
  }

  lemma {:induction false} CleanDrainRepeats(s: State, events: seq<Event>, answers: nat -> FlushOutcome)
    requires forall k :: 0 <= k < |events| ==> CleanFlush(answers(k))
    ensures Drained(s, events, answers).ledger.repeats == s.ledger.repeats
  {
    if events != [] {
      var n := |events| - 1;
      CleanDrainRepeats(s, events[..n], answers);
      CleanFlushRepeats(Pushed(Drained(s, events[..n], answers), events[n]), answers(n));
    }
  }

  /** Inserts that fail without effect and removals that succeed store nothing twice. */
  lemma {:induction false} CleanRunRepeats(spool: Spool, run: seq<Step>)
    requires forall k :: 0 <= k < |run| ==> CleanStep(run[k])
    ensures After(spool, run).ledger.repeats == 0
  {
    if run != [] {
      CleanRunRepeats(spool, run[..|run| - 1]);
      CleanStepRepeats(After(spool, run[..|run| - 1]), run[|run| - 1]);
    }
  }

  lemma CleanFlushRepeats(s: State, o: FlushOutcome)
    requires CleanFlush(o)
    ensures Flushed(s, o).ledger.repeats == s.ledger.repeats
  {
  }

  lemma CleanStepRepeats(s: State, step: Step)
    requires CleanStep(step)
    ensures Taken(s, step).ledger.repeats == s.ledger.repeats
  {
    match step {
      case Arrive(e, o) =>
        CleanFlushRepeats(Pushed(s, e), o);
      case Tick(files, o) =>
        CleanReplayRepeats(s, FirstFiles(files));
        CleanFlushRepeats(ReplayedFiles(s, FirstFiles(files)), o);
      case Close(o) =>
        CleanFlushRepeats(s, o);
      case ShutDown(pending, drains, o) =>
        CleanDrainRepeats(s, pending, drains);
        CleanFlushRepeats(Drained(s, pending, drains), o);
    }
  }

  // ----- When no file is replaced -----

  function DrainNames(answers: nat -> FlushOutcome, n: nat): seq<FileName> {
    if n == 0 then [] else DrainNames(answers, n - 1) + [answers(n - 1).name]
  }

  /** The file names the environment has ready for the flushes of a step. */
  function StepNames(step: Step): seq<FileName> {
    match step
    case Arrive(_, o) => [o.name]
    case Tick(_, o) => [o.name]
    case Close(o) => [o.name]
    case ShutDown(pending, drains, o) => DrainNames(drains, |pending|) + [o.name]
  }

  function RunNames(run: seq<Step>): seq<FileName> {
    if run == [] then [] else RunNames(run[..|run| - 1]) + StepNames(run[|run| - 1])
  }

  /** The names differ from each other and from `used`. */
  predicate Fresh(used: set<FileName>, names: seq<FileName>) {
    && (forall i, j :: 0 <= i < j < |names| ==> names[i] != names[j])
    && (forall i :: 0 <= i < |names| ==> names[i] !in used)
  }

  function Members(names: seq<FileName>): set<FileName> {
    set name | name in names
  }

  lemma FreshConcat(used: set<FileName>, a: seq<FileName>, b: seq<FileName>)
    requires Fresh(used, a + b)
    ensures Fresh(used, a) && Fresh(used + Members(a), b)
    ensures used + Members(a + b) == used + Members(a) + Members(b)
  {
    assert forall i :: 0 <= i < |a| ==> (a + b)[i] == a[i];
    assert forall i :: 0 <= i < |b| ==> (a + b)[|a| + i] == b[i];
  }

  /** All files have names in `used`, and none has been replaced. */
  ghost predicate Unreplaced(s: State, used: set<FileName>) {
    s.spool.Keys <= used && s.ledger.collisions == 0
  }

  lemma FlushFresh(s: State, used: set<FileName>, o: FlushOutcome)
    requires Unreplaced(s, used) && o.name !in used
    ensures Unreplaced(Flushed(s, o), used + {o.name})
  {
  }

  lemma ReceiveFresh(s: State, used: set<FileName>, e: Event, o: FlushOutcome)
    requires Unreplaced(s, used) && o.name !in used
    ensures Unreplaced(Received(s, e, o), used + {o.name})
  {
    FlushFresh(Pushed(s, e), used, o);
  }

  lemma {:induction false} ReplayFresh(s: State, used: set<FileName>, files: seq<Reply>)
    requires Unreplaced(s, used)
    ensures Unreplaced(ReplayedFiles(s, files), used)
    decreases files
  {
    if files != [] {
      var (s1, on) := ReplayedFile(s, files[0]);
      if on {
        ReplayFresh(s1, used, files[1..]);
      }
    }
  }

  lemma {:induction false} DrainFresh(s: State, used: set<FileName>, events: seq<Event>, answers: nat -> FlushOutcome)
    requires Unreplaced(s, used) && Fresh(used, DrainNames(answers, |events|))
    ensures Unreplaced(Drained(s, events, answers), used + Members(DrainNames(answers, |events|)))
  {
    if events != [] {
      var n := |events| - 1;
      var names := DrainNames(answers, n);
      FreshConcat(used, names, [answers(n).name]);
      DrainFresh(s, used, events[..n], answers);
      FreshOne(used + Members(names), answers(n).name);
      ReceiveFresh(Drained(s, events[..n], answers), used + Members(names), events[n], answers(n));
    }
  }

  lemma FreshOne(used: set<FileName>, name: FileName)
    ensures Fresh(used, [name]) ==> name !in used
    ensures Members([name]) == {name}
  {
    assert [name][0] == name;
  }

  lemma StepFresh(s: State, used: set<FileName>, step: Step)
    requires Unreplaced(s, used) && Fresh(used, StepNames(step))
    ensures Unreplaced(Taken(s, step), used + Members(StepNames(step)))
  {
    match step {
      case Arrive(e, o) =>
        FreshOne(used, o.name);
        ReceiveFresh(s, used, e, o);
      case Tick(files, o) =>
        FreshOne(used, o.name);
        ReplayFresh(s, used, FirstFiles(files));
        FlushFresh(ReplayedFiles(s, FirstFiles(files)), used, o);
      case Close(o) =>
        FreshOne(used, o.name);
        FlushFresh(s, used, o);
      case ShutDown(pending, drains, o) =>
        var names := DrainNames(drains, |pending|);
        FreshConcat(used, names, [o.name]);
        FreshOne(used + Members(names), o.name);
        DrainFresh(s, used, pending, drains);
        FlushFresh(Drained(s, pending, drains), used + Members(names), o);
    }
  }

  /** If the names of a run differ from each other and from the files at the start, no file is replaced. */
  lemma {:induction false} FreshRun(spool: Spool, run: seq<Step>)
    requires Fresh(spool.Keys, RunNames(run))
    ensures Unreplaced(After(spool, run), spool.Keys + Members(RunNames(run)))
  {
    if run != [] {
      var init, last := run[..|run| - 1], run[|run| - 1];
      FreshConcat(spool.Keys, RunNames(init), StepNames(last));
      FreshRun(spool, init);
      StepFresh(After(spool, init), spool.Keys + Members(RunNames(init)), last);
    }
  }

  /**
   * With fresh file names, inserts that fail without effect and removals that succeed, every event received
   * or found in the spool is, once, in the buffer, the store, a spool file or a batch whose spool write failed.
   */
  lemma ExactlyOnce(spool: Spool, run: seq<Step>)
    requires Fresh(spool.Keys, RunNames(run))
    requires forall k :: 0 <= k < |run| ==> CleanStep(run[k])
    ensures var s := After(spool, run);
            InSpool(spool) + Incoming(spool, run) ==
            multiset(s.buffer) + s.store + InSpool(s.spool) + s.ledger.abandoned
  {
    var s := After(spool, run);
    FreshRun(spool, run);
    CleanRunRepeats(spool, run);
    NothingIsLostSilently(spool, run);
    DropEmpty(InSpool(spool) + Incoming(spool, run), s.ledger.duplicated,
              multiset(s.buffer) + s.store + InSpool(s.spool) + s.ledger.abandoned, s.ledger.overwritten);
  }

  lemma DropEmpty(a: multiset<Event>, x: multiset<Event>, b: multiset<Event>, y: multiset<Event>)
    requires a + x == b + y && x == multiset{} && y == multiset{}
    ensures a == b
  {
    assert a == a + x && b == b + y;
  }

  // ----- Exactly when a file with events is replaced: the log of the spool directory -----

  datatype FileAct = Wrote(name: FileName) | Removed(name: FileName)

  function FlushLog(s: State, o: FlushOutcome): seq<FileAct> {
    if s.buffer != [] && o.first.Failed? && o.second.Failed? && o.spoolOk then [Wrote(o.name)] else []
  }

  function ReceiveLog(s: State, e: Event, o: FlushOutcome): seq<FileAct> {
    if |s.buffer| + 1 >= BATCH_MAX_EVENTS then FlushLog(Pushed(s, e), o) else []
  }

  function ReplayFileLog(s: State, o: Reply): seq<FileAct> {
    if o.readable && o.name in s.spool && o.removed && (Readable(s.spool[o.name]) == [] || o.insert.Done?)
    then [Removed(o.name)] else []
  }

  function ReplayLog(s: State, files: seq<Reply>): seq<FileAct>
    decreases files
  {
    if files == [] then []
    else
      var (s1, on) := ReplayedFile(s, files[0]);
      ReplayFileLog(s, files[0]) + if on then ReplayLog(s1, files[1..]) else []
  }

  function DrainLog(s: State, events: seq<Event>, answers: nat -> FlushOutcome): seq<FileAct> {
    if events == [] then []
    else
      var n := |events| - 1;
      DrainLog(s, events[..n], answers) + ReceiveLog(Drained(s, events[..n], answers), events[n], answers(n))
  }

  function StepLog(s: State, step: Step): seq<FileAct> {
    if !s.running then []
    else
      match step
      case Arrive(e, o) => ReceiveLog(s, e, o)
      case Tick(files, o) => ReplayLog(s, FirstFiles(files)) + FlushLog(ReplayedFiles(s, FirstFiles(files)), o)
      case Close(o) => FlushLog(s, o)
      case ShutDown(pending, drains, o) => DrainLog(s, pending, drains) + FlushLog(Drained(s, pending, drains), o)
  }

  /** The spool files a run writes and removes, in order. */
  function RunLog(spool: Spool, run: seq<Step>): seq<FileAct> {
    if run == [] then []
    else RunLog(spool, run[..|run| - 1]) + StepLog(After(spool, run[..|run| - 1]), run[|run| - 1])
  }

  /** After the log the name is taken: last written, not removed, or untouched and holding events at the start. */
  predicate InUse(spool: Spool, log: seq<FileAct>, name: FileName) {
    if log == [] then Holds(spool, name)
    else if log[|log| - 1].name == name then log[|log| - 1].Wrote?
    else InUse(spool, log[..|log| - 1], name)
  }

  /** Some write of the log takes a name in use. */
  predicate Clashes(spool: Spool, log: seq<FileAct>) {
    exists k :: 0 <= k < |log| && Clash(spool, log, k)
  }

  predicate Clash(spool: Spool, log: seq<FileAct>, k: nat)
    requires k < |log|
  {
    log[k].Wrote? && InUse(spool, log[..k], log[k].name)
  }

  lemma ClashesSnoc(spool: Spool, log: seq<FileAct>, a: FileAct)
    ensures Clashes(spool, log + [a]) <==> Clashes(spool, log) || (a.Wrote? && InUse(spool, log, a.name))
  {
    var longer := log + [a];
    assert longer[..|log|] == log;
    forall k | 0 <= k < |log|
      ensures Clash(spool, longer, k) == Clash(spool, log, k)
    {
      assert longer[..k] == log[..k];
    }
    if Clashes(spool, log) {
      var k :| 0 <= k < |log| && Clash(spool, log, k);
      assert Clash(spool, longer, k);
    }
    assert Clash(spool, longer, |log|) <==> a.Wrote? && InUse(spool, log, a.name);
  }

  lemma InUseSnoc(spool: Spool, log: seq<FileAct>, a: FileAct, name: FileName)
    ensures InUse(spool, log + [a], name) <==> if a.name == name then a.Wrote? else InUse(spool, log, name)
  {
    assert (log + [a])[..|log|] == log;
  }

  /** The log tells which files hold events and whether one has been replaced. */
  ghost predicate Logged(spool: Spool, log: seq<FileAct>, s: State) {
    && (forall name :: Holds(s.spool, name) <==> InUse(spool, log, name))
    && (s.ledger.collisions > 0 <==> Clashes(spool, log))
  }

  lemma SpoolLogged(spool: Spool, log: seq<FileAct>, s: State, name: FileName, batch: seq<Event>)
    requires Logged(spool, log, s) && batch != []
    ensures Logged(spool, log + [Wrote(name)], Spooled(s, name, batch))
  {
    ReadableRows(batch);
    ClashesSnoc(spool, log, Wrote(name));
    forall other { InUseSnoc(spool, log, Wrote(name), other); }
  }

  lemma RemoveLogged(spool: Spool, log: seq<FileAct>, s: State, name: FileName)
    requires Logged(spool, log, s)
    ensures Logged(spool, log + [Removed(name)], s.(spool := s.spool - {name}))
  {
    ClashesSnoc(spool, log, Removed(name));
    forall other { InUseSnoc(spool, log, Removed(name), other); }
  }

  /** Only the files and the count of replacements matter. */
  lemma SameFilesLogged(spool: Spool, log: seq<FileAct>, s: State, s': State)
    requires Logged(spool, log, s) && s'.spool == s.spool && s'.ledger.collisions == s.ledger.collisions
    ensures Logged(spool, log + [], s')
  {
    assert log + [] == log;
  }

  lemma FlushLogged(spool: Spool, log: seq<FileAct>, s: State, o: FlushOutcome)
    requires Logged(spool, log, s)
    ensures Logged(spool, log + FlushLog(s, o), Flushed(s, o))
  {
    if FlushLog(s, o) == [] {
      SameFilesLogged(spool, log, s, Flushed(s, o));
    } else {
      var batch, s1 := s.buffer, s.(buffer := []);
      var s3 := PartlyStored(PartlyStored(s1, batch, o.first.wrote), batch, o.second.wrote);
      SameFilesLogged(spool, log, s, s3);
      assert log + [] == log;
      SpoolLogged(spool, log, s3, o.name, batch);
    }
  }

  lemma ReceiveLogged(spool: Spool, log: seq<FileAct>, s: State, e: Event, o: FlushOutcome)
    requires Logged(spool, log, s)
    ensures Logged(spool, log + ReceiveLog(s, e, o), Received(s, e, o))
  {
    SameFilesLogged(spool, log, s, Pushed(s, e));
    assert log + [] == log;
    FlushLogged(spool, log, Pushed(s, e), o);
  }

  lemma ReplayFileLogged(spool: Spool, log: seq<FileAct>, s: State, o: Reply)
    requires Logged(spool, log, s)
    ensures Logged(spool, log + ReplayFileLog(s, o), ReplayedFile(s, o).0)
  {
    var s' := ReplayedFile(s, o).0;
    if ReplayFileLog(s, o) == [] {
      SameFilesLogged(spool, log, s, s');
    } else {
      RemoveLogged(spool, log, s, o.name);
      SameFilesLogged(spool, log + [Removed(o.name)], s.(spool := s.spool - {o.name}), s');
      assert log + [Removed(o.name)] + [] == log + [Removed(o.name)];
    }
  }

  lemma {:induction false} ReplayLogged(spool: Spool, log: seq<FileAct>, s: State, files: seq<Reply>)
    requires Logged(spool, log, s)
    ensures Logged(spool, log + ReplayLog(s, files), ReplayedFiles(s, files))
    decreases files
  {
    if files == [] {
      assert log + [] == log;
    } else {
      var first := ReplayFileLog(s, files[0]);
      var (s1, on) := ReplayedFile(s, files[0]);
      ReplayFileLogged(spool, log, s, files[0]);
      if on {
        var more := ReplayLog(s1, files[1..]);
        ReplayLogged(spool, log + first, s1, files[1..]);
        assert log + first + more == log + (first + more);
      } else {
        assert first + [] == first;
      }
    }
  }

  lemma {:induction false} DrainLogged(
    spool: Spool, log: seq<FileAct>, s: State, events: seq<Event>, answers: nat -> FlushOutcome)
    requires Logged(spool, log, s)
    ensures Logged(spool, log + DrainLog(s, events, answers), Drained(s, events, answers))
  {
    if events == [] {
      assert log + [] == log;
    } else {
      var n := |events| - 1;
      var before, here := DrainLog(s, events[..n], answers), Drained(s, events[..n], answers);
      DrainLogged(spool, log, s, events[..n], answers);
      ThenReceiveLogged(spool, log, before, here, events[n], answers(n));
    }
  }

  lemma ThenReceiveLogged(spool: Spool, log: seq<FileAct>, first: seq<FileAct>, s: State, e: Event, o: FlushOutcome)
    requires Logged(spool, log + first, s)
    ensures Logged(spool, log + (first + ReceiveLog(s, e, o)), Received(s, e, o))
  {
    ReceiveLogged(spool, log + first, s, e, o);
    JoinLogs(log, first, ReceiveLog(s, e, o));
  }

  lemma JoinLogs(a: seq<FileAct>, b: seq<FileAct>, c: seq<FileAct>)
    ensures a + b + c == a + (b + c)
  {
  }

  lemma StepLogged(spool: Spool, log: seq<FileAct>, s: State, step: Step)
    requires Logged(spool, log, s)
    ensures Logged(spool, log + StepLog(s, step), Taken(s, step))
  {
    if !s.running {
      assert log + [] == log;
    } else {
      match step {
        case Arrive(e, o) =>
          ReceiveLogged(spool, log, s, e, o);
        case Tick(files, o) =>
          var first, s1 := ReplayLog(s, FirstFiles(files)), ReplayedFiles(s, FirstFiles(files));
          ReplayLogged(spool, log, s, FirstFiles(files));
          ThenFlushLogged(spool, log, first, s1, o);
        case Close(o) =>
          FlushLogged(spool, log, s, o);
          StopLogged(spool, log + FlushLog(s, o), Flushed(s, o));
        case ShutDown(pending, drains, o) =>
          var first, s1 := DrainLog(s, pending, drains), Drained(s, pending, drains);
          DrainLogged(spool, log, s, pending, drains);
          ThenFlushLogged(spool, log, first, s1, o);
          StopLogged(spool, log + (first + FlushLog(s1, o)), Flushed(s1, o));
      }
    }
  }

  lemma ThenFlushLogged(spool: Spool, log: seq<FileAct>, first: seq<FileAct>, s: State, o: FlushOutcome)
    requires Logged(spool, log + first, s)
    ensures Logged(spool, log + (first + FlushLog(s, o)), Flushed(s, o))
  {
    FlushLogged(spool, log + first, s, o);
    assert log + first + FlushLog(s, o) == log + (first + FlushLog(s, o));
  }

  lemma StopLogged(spool: Spool, log: seq<FileAct>, s: State)
    requires Logged(spool, log, s)
    ensures Logged(spool, log, Stopped(s))
  {
  }

  lemma {:induction false} RunLogged(spool: Spool, run: seq<Step>)
    ensures Logged(spool, RunLog(spool, run), After(spool, run))
  {
    if run != [] {
      var init, last := run[..|run| - 1], run[|run| - 1];
      RunLogged(spool, init);
      StepLogged(spool, RunLog(spool, init), After(spool, init), last);
    }
  }

  /**
   * A run loses events to replaced files exactly when its log has a write under a name that was written
   * before, or held events at the start, and was not removed in between.
   */
  lemma ReplacedIff(spool: Spool, run: seq<Step>)
    ensures After(spool, run).ledger.overwritten != multiset{} <==> Clashes(spool, RunLog(spool, run))
  {
    RunLogged(spool, run);
    NothingIsLostSilently(spool, run);
  }

  /** All inserts fail without effect, and the batch goes to the file of that name. */
  function Outage(name: FileName): FlushOutcome {
    FlushOutcome(Failed(multiset{}), Failed(multiset{}), true, name)
  }

  lemma SpoolsOne(s: State, e: Event, name: FileName)
    requires s.running && s.buffer == []
    ensures var s' := Taken(Taken(s, Arrive(e, Outage(name))), Tick([], Outage(name)));
            && s'.running && s'.buffer == [] && s'.store == s.store && s'.spool == s.spool[name := Rows([e])]
            && s'.ledger.overwritten ==
               s.ledger.overwritten + if name in s.spool then Bag(s.spool[name]) else multiset{}
  {
    var o, s1 := Outage(name), Pushed(s, e);
    assert Taken(s, Arrive(e, o)) == s1 && s1.buffer == [e];
    assert ReplayedFiles(s1, FirstFiles([])) == s1;
    assert multiset{} * multiset([e]) == multiset{};
  }

  lemma FourSteps(spool: Spool, a: Step, b: Step, c: Step, d: Step)
    ensures After(spool, [a, b, c, d]) == Taken(Taken(Taken(Taken(New(spool), a), b), c), d)
  {
    assert [a, b, c, d][..3] == [a, b, c] && [a, b, c][..2] == [a, b] && [a, b][..1] == [a] && [a][..0] == [];
    assert After(spool, [a]) == Taken(New(spool), a);
    assert After(spool, [a, b]) == Taken(After(spool, [a]), b);
    assert After(spool, [a, b, c]) == Taken(After(spool, [a, b]), c);
  }

  /** Two batches spooled under one name, from an empty spool: the first event is lost. */
  lemma ClashLosesEvent(e: Event, f: Event, name: FileName)
    ensures var o := Outage(name);
            var s := After(map[], [Arrive(e, o), Tick([], o), Arrive(f, o), Tick([], o)]);
            s.ledger.overwritten == multiset{e} && s.store == multiset{} && s.spool == map[name := Rows([f])]
  {
    var o := Outage(name);
    FourSteps(map[], Arrive(e, o), Tick([], o), Arrive(f, o), Tick([], o));
    SpoolsOne(New(map[]), e, name);
    SecondLosesFirst(Taken(Taken(New(map[]), Arrive(e, o)), Tick([], o)), e, f, name);
  }

  lemma SecondLosesFirst(s: State, e: Event, f: Event, name: FileName)
    requires s.running && s.buffer == [] && s.store == multiset{} && s.spool == map[name := Rows([e])]
    requires s.ledger.overwritten == multiset{}
    ensures var s' := Taken(Taken(s, Arrive(f, Outage(name))), Tick([], Outage(name)));
            s'.ledger.overwritten == multiset{e} && s'.store == multiset{} && s'.spool == map[name := Rows([f])]
  {
    SpoolsOne(s, f, name);
    BagOfOne(e);
    Rewritten(name, Rows([e]), Rows([f]));
  }

  lemma BagOfOne(e: Event)
    ensures Bag(Rows([e])) == multiset{e}
  {
    ReadableRows([e]);
  }

  lemma Rewritten(name: FileName, before: seq<Row>, after: seq<Row>)
    ensures map[name := before][name := after] == map[name := after]
  {
  }
}
