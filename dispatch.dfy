/** The wait loop: it consumes what the file watcher delivers until the first
    new file or a timeout, prompts for that file's format and renames it.

    The watcher's output is an abstract sequence of `Received` values, one per
    receive with timeout; the operator's answers and the result of the rename
    are the `World` the run takes place in. A run prompts for at most one
    file, so one answer per prompt is enough. */
module Dispatch {
  import opened Paths
  import opened Formats

  /** The sub-kind of a creation event: the watcher may or may not say what
      was created. */
  datatype CreateKind = AnyCreate | File | Folder | OtherCreate

  /** The kind of a watcher event. */
  datatype EventKind = AnyKind | Access | Create(what: CreateKind) | Modify | Remove | OtherKind

  datatype WatchEvent = WatchEvent(kind: EventKind, paths: seq<FilePath>)

  /** One result of waiting on the event channel: an event, an error of the
      watch backend, or no event within the timeout (the channel closing
      gives the same result). */
  datatype Received = Event(event: WatchEvent) | BackendError(message: string) | Timeout

  /** The operator's answers to the two prompts, and whether the rename
      succeeds on the file system. */
  datatype World = World(selection: Reply<Selection>, customText: Reply<string>, renameSucceeds: bool)

  /** The failures that end the run with an error. */
  datatype Failure = PromptError | RenameError

  /** How a run ends: still waiting when the input runs out, timed out, one
      file renamed, or aborted by a failure. */
  datatype Outcome = Waiting | TimedOut | Renamed(from: FilePath, to: FilePath) | Aborted(failure: Failure)

  /** The status lines the run writes, in order. */
  datatype Notice =
    | WatchErrorReported(message: string)
    | NewFileDetected(path: FilePath)
    | EmptyExtensionWarning
    | RenamedTo(path: FilePath)
    | NoActivity

  /** A run: its outcome, the notices it wrote, and how many results it
      received from the channel. */
  datatype Trace = Trace(outcome: Outcome, log: seq<Notice>, consumed: nat)

  /** An event the loop acts on: a creation, of any sub-kind, with a path. */
  predicate Qualifies(e: WatchEvent)
  {
    e.kind.Create? && |e.paths| > 0
  }

  /** A received value that ends the wait. */
  predicate EndsWait(r: Received)
  {
    r.Timeout? || (r.Event? && Qualifies(r.event))
  }

  /** The notices a stretch of non-final input writes: one per backend error. */
  function Reports(inbox: seq<Received>): (log: seq<Notice>)
    ensures forall i :: 0 <= i < |log| ==> log[i].WatchErrorReported?
  {
    if inbox == [] then []
    else (if inbox[0].BackendError? then [WatchErrorReported(inbox[0].message)] else []) + Reports(inbox[1..])
  }

  /** Prompts for the format of the new file `path`, resolves the extension
      and renames the file. The file is announced first. A failing prompt
      aborts the run with a prompt error, a failing rename with a rename
      error; either way the original file is left in place. A rename gives
      the file the extension resolved from the operator's answers, keeping
      its directory and stem, and is the last thing reported. The warning is
      written exactly when the resolution warned, once, right after the
      announcement. */
  function Respond(path: FilePath, w: World): (t: (Outcome, seq<Notice>))
    ensures t.0 != Waiting && t.0 != TimedOut
    ensures |t.1| >= 1 && t.1[0] == NewFileDetected(path)
    ensures t.0 == Aborted(PromptError) <==> w.selection.Closed? || Resolve(w.selection.value, w.customText).Closed?
    ensures t.0 == Aborted(RenameError) <==>
              w.selection.Answered? && Resolve(w.selection.value, w.customText).Answered? && !w.renameSucceeds
    ensures t.0.Renamed? ==>
              w.selection.Answered? && Resolve(w.selection.value, w.customText).Answered? &&
              t.0.from == path && t.0.to == WithExtension(path, Resolve(w.selection.value, w.customText).value.ext)
    ensures t.0.Renamed? ==>
              t.0.to.parent == path.parent && t.0.to.stem == path.stem &&
              t.0.to.ext.Some? && t.0.to.ext.value != "" &&
              t.1[|t.1| - 1] == RenamedTo(t.0.to)
    ensures (EmptyExtensionWarning in t.1) <==>
              w.selection.Answered? && Resolve(w.selection.value, w.customText).Answered? &&
              Resolve(w.selection.value, w.customText).value.warned
    ensures forall i :: 0 <= i < |t.1| ==> (t.1[i].NewFileDetected? <==> i == 0)
    ensures forall i :: 0 <= i < |t.1| ==> (t.1[i].EmptyExtensionWarning? ==> i == 1)
    ensures forall i :: 0 <= i < |t.1| ==> (t.1[i].RenamedTo? <==> t.0.Renamed? && i == |t.1| - 1)
    ensures forall i :: 0 <= i < |t.1| ==> !t.1[i].WatchErrorReported? && !t.1[i].NoActivity?
  {
    match w.selection
    case Closed => (Aborted(PromptError), [NewFileDetected(path)])
    case Answered(s) =>
      match Resolve(s, w.customText)
      case Closed => (Aborted(PromptError), [NewFileDetected(path)])
      case Answered(res) =>
        var warning := if res.warned then [EmptyExtensionWarning] else [];
        var target := WithExtension(path, res.ext);
        if w.renameSucceeds then (Renamed(path, target), [NewFileDetected(path)] + warning + [RenamedTo(target)])
        else (Aborted(RenameError), [NewFileDetected(path)] + warning)
  }

  /** What the run does after the input that ended the wait. */
  function Finish(r: Received, w: World): (t: (Outcome, seq<Notice>))
    requires EndsWait(r)
  {
    if r.Timeout? then (TimedOut, [NoActivity]) else Respond(r.event.paths[0], w)
  }

  /** A trace preceded by `n` received values that wrote `notices` and did
      not end the wait. */
  function After(notices: seq<Notice>, n: nat, t: Trace): Trace
  {
    Trace(t.outcome, notices + t.log, t.consumed + n)
  }

  /** The position of the first value in `inbox` that ends the wait, or the
      length of `inbox` when no value does. */
  function FirstEnd(inbox: seq<Received>): (k: nat)
    ensures k <= |inbox|
    ensures k < |inbox| ==> EndsWait(inbox[k])
    ensures forall j :: 0 <= j < k ==> !EndsWait(inbox[j])
  {
    if inbox == [] || EndsWait(inbox[0]) then 0 else 1 + FirstEnd(inbox[1..])
  }

  /** The run over the input `inbox`. It reads up to and including the first
      value that ends the wait, and nothing after it; if there is no such
      value it reads everything and is still waiting. A rename is always of
      the first path of the creation event that ended the wait, to the
      extension resolved from the operator's answers. */
  function Run(inbox: seq<Received>, w: World): (t: Trace)
    ensures t.consumed <= |inbox|
    ensures t.outcome == Waiting <==> t.consumed == |inbox| && forall j :: 0 <= j < |inbox| ==> !EndsWait(inbox[j])
    ensures t.outcome != Waiting ==> 0 < t.consumed && EndsWait(inbox[t.consumed - 1])
    ensures forall j :: 0 <= j < t.consumed - 1 ==> !EndsWait(inbox[j])
    ensures t.outcome == TimedOut ==> inbox[t.consumed - 1].Timeout?
    ensures t.outcome.Renamed? ==>
              inbox[t.consumed - 1].Event? && inbox[t.consumed - 1].event.kind.Create? &&
              |inbox[t.consumed - 1].event.paths| > 0 && t.outcome.from == inbox[t.consumed - 1].event.paths[0]
    ensures t.outcome.Renamed? ==>
              w.selection.Answered? && Resolve(w.selection.value, w.customText).Answered? &&
              t.outcome.to == WithExtension(t.outcome.from, Resolve(w.selection.value, w.customText).value.ext)
  {
    var k := FirstEnd(inbox);
    if k == |inbox| then Trace(Waiting, Reports(inbox), k)
    else
      var (outcome, notices) := Finish(inbox[k], w);
      Trace(outcome, Reports(inbox[..k]) + notices, k + 1)
  }

  /** The reports of two stretches of input, one after the other, are the
      reports of the first followed by those of the second. */
  lemma {:induction false} ReportsAppend(a: seq<Received>, b: seq<Received>)
    ensures Reports(a + b) == Reports(a) + Reports(b)
  {
    if a == [] {
      assert a + b == b;
    } else {
      ReportsAppend(a[1..], b);
      assert (a + b)[1..] == a[1..] + b;
    }
  }

  /** Reading one more value adds that value's report, if any, to the log. */
  lemma ReportsOneMore(inbox: seq<Received>, c: nat)
    requires c < |inbox|
    ensures Reports(inbox[..c + 1]) ==
              Reports(inbox[..c]) + (if inbox[c].BackendError? then [WatchErrorReported(inbox[c].message)] else [])
  {
    assert inbox[..c + 1] == inbox[..c] + [inbox[c]];
    ReportsAppend(inbox[..c], [inbox[c]]);
  }

  /** Prompts for the format of the new file `path` and renames it, stopping
      at the first prompt or rename that fails. */
  method HandleNewFile(path: FilePath, w: World) returns (outcome: Outcome, notices: seq<Notice>)
    ensures (outcome, notices) == Respond(path, w)
  {
    notices := [NewFileDetected(path)];
    if w.selection.Closed? {
      return Aborted(PromptError), notices;
    }
    var resolved := Resolve(w.selection.value, w.customText);
    if resolved.Closed? {
      return Aborted(PromptError), notices;
    }
    if resolved.value.warned {
      notices := notices + [EmptyExtensionWarning];
    }
    assert notices == [NewFileDetected(path)] + (if resolved.value.warned then [EmptyExtensionWarning] else []);
    var newPath := path;
    newPath := WithExtension(newPath, resolved.value.ext);
    if !w.renameSucceeds {
      return Aborted(RenameError), notices;
    }
    notices := notices + [RenamedTo(newPath)];
    outcome := Renamed(path, newPath);
  }

  /** The wait loop itself: receive until a creation with a path arrives or
      the wait times out; on the creation, prompt, rename and stop. Backend
      errors are reported and the wait goes on; other events are ignored. */
  method WaitForFirstFile(inbox: seq<Received>, w: World) returns (outcome: Outcome, log: seq<Notice>, consumed: nat)
    ensures Trace(outcome, log, consumed) == Run(inbox, w)
  {
    outcome, log, consumed := Waiting, [], 0;
    while consumed < |inbox|
      invariant consumed <= FirstEnd(inbox) && outcome == Waiting
      invariant log == Reports(inbox[..consumed])
      decreases |inbox| - consumed
    {
      var received := inbox[consumed];
      match received {
        case Event(e) =>
          if e.kind.Create? && |e.paths| > 0 {
            FirstEndDecides(inbox, w, consumed);
            var notices;
            outcome, notices := HandleNewFile(e.paths[0], w);
            log, consumed := log + notices, consumed + 1;
            break;
          }
          ReportsOneMore(inbox, consumed);
          consumed := consumed + 1;
        case BackendError(m) =>
          ReportsOneMore(inbox, consumed);
          log, consumed := log + [WatchErrorReported(m)], consumed + 1;
        case Timeout =>
          FirstEndDecides(inbox, w, consumed);
          log, consumed := log + [NoActivity], consumed + 1;
          outcome := TimedOut;
          break;
      }
    }
    assert inbox[..|inbox|] == inbox;
  }

  /** A value that does not end the wait only adds its report, if any, in
      front of the run on the rest of the input: other events and creations
      without a path are skipped silently, a backend error is reported and
      the wait goes on. */
  lemma SkippedInputContinues(r: Received, rest: seq<Received>, w: World)
    requires !EndsWait(r)
    ensures Run([r] + rest, w) == After(Reports([r]), 1, Run(rest, w))
  {
    var inbox := [r] + rest;
    assert inbox[1..] == rest;
    var k := FirstEnd(rest);
    assert FirstEnd(inbox) == k + 1;
    if k < |rest| {
      assert inbox[..k + 1] == [r] + rest[..k];
      ReportsAppend([r], rest[..k]);
    } else {
      ReportsAppend([r], rest);
    }
  }

  /** The run up to the first value that ends the wait: the backend errors
      before it are reported in order, then that value decides the rest. */
  lemma FirstEndDecides(inbox: seq<Received>, w: World, k: nat)
    requires k < |inbox| && EndsWait(inbox[k])
    requires forall j :: 0 <= j < k ==> !EndsWait(inbox[j])
    ensures Run(inbox, w).consumed == k + 1
    ensures Run(inbox, w).outcome == Finish(inbox[k], w).0
    ensures Run(inbox, w).log == Reports(inbox[..k]) + Finish(inbox[k], w).1
  {
  }

  /** Without a value that ends the wait, the run reads all of its input,
      reports every backend error in it and is still waiting. */
  lemma NoEndKeepsWaiting(inbox: seq<Received>, w: World)
    requires forall j :: 0 <= j < |inbox| ==> !EndsWait(inbox[j])
    ensures Run(inbox, w) == Trace(Waiting, Reports(inbox), |inbox|)
  {
  }

  /** Once the run has stopped, whatever the watcher delivers afterwards is
      never read: the loop leaves after the first rename or timeout. */
  lemma LaterInputUnread(inbox: seq<Received>, more: seq<Received>, w: World)
    requires Run(inbox, w).outcome != Waiting
    ensures Run(inbox + more, w) == Run(inbox, w)
  {
    var k := FirstEnd(inbox);
    assert forall j :: 0 <= j <= k ==> (inbox + more)[j] == inbox[j];
    assert FirstEnd(inbox + more) == k;
    assert (inbox + more)[..k] == inbox[..k];
  }

  /** The values that can end the wait, in order; everything else is dropped.
      Each value that ends the wait is kept as often as it occurs. */
  function Decisive(inbox: seq<Received>): (d: seq<Received>)
    ensures forall j :: 0 <= j < |d| ==> EndsWait(d[j])
    ensures forall x :: multiset(d)[x] == if EndsWait(x) then multiset(inbox)[x] else 0
    ensures d != [] <==> FirstEnd(inbox) < |inbox|
    ensures d != [] ==> d[0] == inbox[FirstEnd(inbox)]
  {
    if inbox == [] then []
    else
      assert inbox == [inbox[0]] + inbox[1..];
      (if EndsWait(inbox[0]) then [inbox[0]] else []) + Decisive(inbox[1..])
  }

  lemma ConcatAssociates<T>(x: seq<T>, y: seq<T>, z: seq<T>)
    ensures x + (y + z) == (x + y) + z
  {
  }

  /** Filtering keeps order: the values of two stretches of input that end
      the wait are those of the first followed by those of the second. */
  lemma {:induction false} DecisiveAppend(a: seq<Received>, b: seq<Received>)
    ensures Decisive(a + b) == Decisive(a) + Decisive(b)
  {
    if a == [] {
      assert a + b == b;
    } else {
      var head := if EndsWait(a[0]) then [a[0]] else [];
      assert (a + b)[0] == a[0] && (a + b)[1..] == a[1..] + b;
      assert Decisive(a + b) == head + Decisive(a[1..] + b);
      DecisiveAppend(a[1..], b);
      assert Decisive(a) == head + Decisive(a[1..]);
      ConcatAssociates(head, Decisive(a[1..]), Decisive(b));
    }
  }

  /** Backend errors, non-creation events and creations without a path never
      change how the run ends: removing them all leaves the outcome as it was. */
  lemma OnlyDecisiveInputMatters(inbox: seq<Received>, w: World)
    ensures Run(inbox, w).outcome == Run(Decisive(inbox), w).outcome
  {
    var d := Decisive(inbox);
    if d != [] {
      assert FirstEnd(d) == 0;
    }
  }

  /** A run announces at most one new file, warns about an empty extension at
      most once and renames at most one file, and it reports a rename exactly
      when its outcome is that rename. */
  lemma AtMostOneFilePerRun(inbox: seq<Received>, w: World)
    ensures var log := Run(inbox, w).log;
      forall i, j :: 0 <= i < j < |log| ==> !(log[i].NewFileDetected? && log[j].NewFileDetected?)
    ensures var log := Run(inbox, w).log;
      forall i, j :: 0 <= i < j < |log| ==> !(log[i].RenamedTo? && log[j].RenamedTo?)
    ensures var log := Run(inbox, w).log;
      forall i, j :: 0 <= i < j < |log| ==> !(log[i].EmptyExtensionWarning? && log[j].EmptyExtensionWarning?)
    ensures var t := Run(inbox, w);
      (exists i :: 0 <= i < |t.log| && t.log[i].RenamedTo?) <==> t.outcome.Renamed?
  {
    var t := Run(inbox, w);
    if t.outcome != Waiting {
      var k := FirstEnd(inbox);
      var pre := Reports(inbox[..k]);
      var fin := Finish(inbox[k], w).1;
      assert t.log == pre + fin;
      forall i | 0 <= i < |t.log|
        ensures t.log[i].NewFileDetected? ==> i == |pre|
        ensures t.log[i].EmptyExtensionWarning? ==> i == |pre| + 1
        ensures t.log[i].RenamedTo? <==> t.outcome.Renamed? && i == |t.log| - 1
      {
        if i >= |pre| {
          assert t.log[i] == fin[i - |pre|];
        }
      }
      if t.outcome.Renamed? {
        assert t.log[|t.log| - 1].RenamedTo?;
      }
    }
  }

  /** A timeout ends the run with no prompt and no rename: only the backend
      errors before it and the no-activity notice are written. */
  lemma TimeoutRenamesNothing(inbox: seq<Received>, w: World)
    requires Run(inbox, w).outcome == TimedOut
    ensures Run(inbox, w).log == Reports(inbox[..Run(inbox, w).consumed - 1]) + [NoActivity]
  {
  }

  /** A creation of any sub-kind, a folder included, with at least one path
      ends the wait when nothing before it did: the operator is prompted for
      its first path, which is the one renamed if the run succeeds. */
  lemma CreationOfAnyKindQualifies(prefix: seq<Received>, c: CreateKind, p: FilePath, more: seq<FilePath>, w: World)
    requires forall j :: 0 <= j < |prefix| ==> !EndsWait(prefix[j])
    ensures var t := Run(prefix + [Event(WatchEvent(Create(c), [p] + more))], w);
      t.consumed == |prefix| + 1 && (t.outcome.Aborted? || t.outcome.Renamed?) &&
      NewFileDetected(p) in t.log &&
      (t.outcome.Renamed? ==> t.outcome.from == p)
  {
    var inbox := prefix + [Event(WatchEvent(Create(c), [p] + more))];
    assert forall j :: 0 <= j < |prefix| ==> inbox[j] == prefix[j];
    FirstEndDecides(inbox, w, |prefix|);
    var t := Run(inbox, w);
    assert t.log[|Reports(inbox[..|prefix|])|] == NewFileDetected(p);
  }

  /** For a named format, a new file whose rename succeeds gets that
      format's fixed extension, in its own directory and under its own stem,
      and no warning is written. */
  lemma NamedFormatRename(path: FilePath, w: World)
    requires w.selection.Answered? && w.selection.value < 5 && w.renameSucceeds
    ensures var t := Respond(path, w);
      t.0.Renamed? && EmptyExtensionWarning !in t.1 &&
      FileName(t.0.to) == path.stem + "." + ["rs", "py", "html", "js", "cpp"][w.selection.value]
  {
    NamedFormatsResolve(w.customText);
  }

  /** A new file "draft.tmp" for which the operator picks "Python" becomes
      "draft.py" in the same directory. */
  lemma PythonScenario()
    ensures var draft := FilePath("/tmp/watch", "draft", Some("tmp"));
      Run([Event(WatchEvent(Create(File), [draft]))], World(Answered(1), Closed, true)) ==
      Trace(Renamed(draft, FilePath("/tmp/watch", "draft", Some("py"))),
            [NewFileDetected(draft), RenamedTo(FilePath("/tmp/watch", "draft", Some("py")))], 1)
  {
  }

  /** A new file "note" for which the operator picks "Other" and types
      nothing becomes "note.txt", with the empty-extension warning. */
  lemma EmptyCustomScenario()
    ensures var note := FilePath("/tmp/watch", "note", None);
      Run([Event(WatchEvent(Create(File), [note]))], World(Answered(5), Answered(""), true)) ==
      Trace(Renamed(note, FilePath("/tmp/watch", "note", Some("txt"))),
            [NewFileDetected(note), EmptyExtensionWarning, RenamedTo(FilePath("/tmp/watch", "note", Some("txt")))], 1)
  {
  }
}
