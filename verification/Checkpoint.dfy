/**
 Atomic checkpoint files (app/state.py, _write_atomic): write a temporary file, flush it to
 disk, rename it over the checkpoint. Any number of writers interleave, any of them may fail,
 and the machine may crash between any two steps.
 */
module Checkpoint {
  import opened Options

  /** A file body; what is not synced may come back from a crash as anything. */
  datatype Inode = Inode(content: string, synced: bool)

  datatype Writer =
    | Writing(inode: nat, text: string, done: nat)   // `done` characters have been written
    | Flushed(inode: nat, text: string)              // all written and synced
    | Finished
    | Failed

  /**
   The name of the checkpoint has pointed to the inodes of `links` one after the other (None:
   no such file yet). `replaced` is what a reader of the specification expects there.
   */
  datatype State = State(inodes: map<nat, Inode>, links: seq<Option<nat>>, writers: map<nat, Writer>,
                         replaced: seq<Option<string>>)

  datatype Step =
    | Create(writer: nat, inode: nat, text: string)   // mkstemp
    | Write(writer: nat, count: nat)
    | Sync(writer: nat)
    | Replace(writer: nat)
    | Fail(writer: nat)                               // an exception: the temporary file is unlinked
    | Crash(survives: nat, garbage: map<nat, string>) // unsynced bodies and late renames may be lost

  predicate Enabled(s: State, step: Step) {
    match step
    case Create(w, inode, _) => w !in s.writers && inode !in s.inodes
    case Write(w, count) =>
      w in s.writers && s.writers[w].Writing? && s.writers[w].done + count <= |s.writers[w].text|
      && s.writers[w].inode in s.inodes
    case Sync(w) =>
      w in s.writers && s.writers[w].Writing? && s.writers[w].done == |s.writers[w].text|
      && s.writers[w].inode in s.inodes
    case Replace(w) => w in s.writers && s.writers[w].Flushed?
    case Fail(w) => w in s.writers && (s.writers[w].Writing? || s.writers[w].Flushed?)
    case Crash(survives, garbage) =>
      survives < |s.links| == |s.replaced| && garbage.Keys == s.inodes.Keys
      && forall i :: i in s.inodes && s.inodes[i].synced ==> garbage[i] == s.inodes[i].content
  }

  function Apply(s: State, step: Step): State
    requires Enabled(s, step)
  {
    match step
    case Create(w, inode, text) =>
      s.(inodes := s.inodes[inode := Inode("", false)], writers := s.writers[w := Writing(inode, text, 0)])
    case Write(w, count) =>
      var x := s.writers[w];
      s.(inodes := s.inodes[x.inode := Inode(x.text[..x.done + count], false)],
         writers := s.writers[w := Writing(x.inode, x.text, x.done + count)])
    case Sync(w) =>
      var x := s.writers[w];
      s.(inodes := s.inodes[x.inode := s.inodes[x.inode].(synced := true)],
         writers := s.writers[w := Flushed(x.inode, x.text)])
    case Replace(w) =>
      s.(links := s.links + [Some(s.writers[w].inode)], writers := s.writers[w := Finished],
         replaced := s.replaced + [Some(s.writers[w].text)])
    case Fail(w) => s.(writers := s.writers[w := Failed])
    case Crash(survives, garbage) =>
      State(map i | i in s.inodes :: Inode(garbage[i], true), s.links[..survives + 1], map[],
            s.replaced[..survives + 1])
  }

  /** What load_checkpoint_sync reads. */
  function Load(s: State): Option<string>
    requires s.links != []
  {
    var link := s.links[|s.links| - 1];
    if link.Some? && link.value in s.inodes then Some(s.inodes[link.value].content) else None
  }

  function Start(initial: Option<string>): State {
    match initial
    case None => State(map[], [None], map[], [None])
    case Some(text) => State(map[0 := Inode(text, true)], [Some(0)], map[], [Some(text)])
  }

  // ---------------------------------------------------------------- what every step keeps

  ghost predicate WriterOk(s: State, x: Writer) {
    match x
    case Writing(inode, text, done) =>
      inode in s.inodes && done <= |text| && s.inodes[inode].content == text[..done] && Some(inode) !in s.links
    case Flushed(inode, text) => inode in s.inodes && s.inodes[inode] == Inode(text, true) && Some(inode) !in s.links
    case Finished => true
    case Failed => true
  }

  predicate Temporary(x: Writer, inode: nat) {
    (x.Writing? || x.Flushed?) && x.inode == inode
  }

  /** Whatever the checkpoint's name points to, now or earlier, is one complete synced text. */
  ghost predicate Invariant(s: State) {
    && |s.links| == |s.replaced| > 0
    && (forall k :: 0 <= k < |s.links| ==> match s.links[k]
         case None => s.replaced[k] == None
         case Some(i) => i in s.inodes && s.inodes[i].synced && s.replaced[k] == Some(s.inodes[i].content))
    && (forall w :: w in s.writers ==> WriterOk(s, s.writers[w]))
    && (forall v, w, i :: v in s.writers && w in s.writers && v != w && Temporary(s.writers[v], i) ==>
         !Temporary(s.writers[w], i))
  }

  lemma StepKeepsInvariant(s: State, step: Step)
    requires Invariant(s) && Enabled(s, step)
    ensures Invariant(Apply(s, step))
  {
    var t := Apply(s, step);
    forall w | w in t.writers ensures WriterOk(t, t.writers[w]) {
      if w in s.writers {
        var x := s.writers[w];
        assert WriterOk(s, x);
        assert x.Writing? || x.Flushed? ==> Temporary(x, x.inode);
        if !step.Crash? && step.writer in s.writers {
          var y := s.writers[step.writer];
          assert y.Writing? || y.Flushed? ==> Temporary(y, y.inode);
        }
      }
    }
  }

  datatype RunResult = Refused | Reached(state: State)

  function Run(s: State, steps: seq<Step>): RunResult
    decreases |steps|
  {
    if steps == [] then Reached(s)
    else if Enabled(s, steps[0]) then Run(Apply(s, steps[0]), steps[1..])
    else Refused
  }

  lemma {:induction false} RunKeepsInvariant(s: State, steps: seq<Step>)
    requires Invariant(s) && Run(s, steps).Reached?
    ensures Invariant(Run(s, steps).state)
    decreases |steps|
  {
    if steps != [] {
      StepKeepsInvariant(s, steps[0]);
      RunKeepsInvariant(Apply(s, steps[0]), steps[1..]);
    }
  }

  // ---------------------------------------------------------------- what a reader finds

  /** What the run, taken as one list of atomic overwrites, leaves in the file. */
  function Overwrites(s: State, steps: seq<Step>, history: seq<Option<string>>): seq<Option<string>>
    decreases |steps|
  {
    if steps == [] || !Enabled(s, steps[0]) then history
    else
      var step := steps[0];
      var now := match step
        case Replace(w) => history + [Some(s.writers[w].text)]
        case Crash(survives, _) => if survives < |history| then history[..survives + 1] else history
        case Create(_, _, _) => history
        case Write(_, _) => history
        case Sync(_) => history
        case Fail(_) => history;
      Overwrites(Apply(s, step), steps[1..], now)
  }

  lemma {:induction false} OverwritesAreReplaced(s: State, steps: seq<Step>)
    requires Invariant(s) && Run(s, steps).Reached?
    ensures Overwrites(s, steps, s.replaced) == Run(s, steps).state.replaced
    decreases |steps|
  {
    if steps != [] {
      StepKeepsInvariant(s, steps[0]);
      OverwritesAreReplaced(Apply(s, steps[0]), steps[1..]);
    }
  }

  /**
   At every moment of every run the checkpoint is the text of the latest rename that a crash
   has not undone, or the initial file: never part of a text, never a mixture.
   */
  lemma CheckpointIsLastOverwrite(initial: Option<string>, steps: seq<Step>)
    requires Run(Start(initial), steps).Reached?
    ensures var t, history := Run(Start(initial), steps).state, Overwrites(Start(initial), steps, [initial]);
      t.links != [] && history != [] && Load(t) == history[|history| - 1]
  {
    RunKeepsInvariant(Start(initial), steps);
    OverwritesAreReplaced(Start(initial), steps);
  }

  /** Every text in that list was handed complete to some writer. */
  ghost predicate FromWriters(history: seq<Option<string>>, initial: Option<string>, texts: set<string>) {
    forall k :: 0 <= k < |history| ==> history[k] == initial || (history[k].Some? && history[k].value in texts)
  }

  function TextsOf(steps: seq<Step>): set<string> {
    if steps == [] then {}
    else (if steps[0].Create? then {steps[0].text} else {}) + TextsOf(steps[1..])
  }

  lemma {:induction false} RunKeepsTexts(s: State, steps: seq<Step>, initial: Option<string>, texts: set<string>)
    requires FromWriters(s.replaced, initial, texts) && Run(s, steps).Reached?
    requires forall w :: w in s.writers && (s.writers[w].Writing? || s.writers[w].Flushed?) ==>
      s.writers[w].text in texts
    ensures FromWriters(Run(s, steps).state.replaced, initial, texts + TextsOf(steps))
    decreases |steps|
  {
    if steps != [] {
      var more := texts + if steps[0].Create? then {steps[0].text} else {};
      RunKeepsTexts(Apply(s, steps[0]), steps[1..], initial, more);
      assert more + TextsOf(steps[1..]) == texts + TextsOf(steps);
    } else {
      assert texts + TextsOf([]) == texts;
    }
  }

  /** So a reader finds the initial file or one whole snapshot. */
  lemma CheckpointIsWhole(initial: Option<string>, steps: seq<Step>)
    requires Run(Start(initial), steps).Reached?
    ensures var t := Run(Start(initial), steps).state;
      t.links != [] && (Load(t) == initial || (Load(t).Some? && Load(t).value in TextsOf(steps)))
  {
    RunKeepsInvariant(Start(initial), steps);
    RunKeepsTexts(Start(initial), steps, initial, {});
    assert {} + TextsOf(steps) == TextsOf(steps);
  }
}
