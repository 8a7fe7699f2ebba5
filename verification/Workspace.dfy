/** The built-in harness: ask for edits, apply them, test, and roll back on any failure. */
module Workspace {
  import opened Text
  import opened Edits
  import EditFormat

  type Files = map<string, string>

  /** What the file system does to one edit. A failed write may leave anything at its path, or nothing new. */
  datatype Fault = Sound | MkdirFails | WriteFails(left: Option<string>)

  datatype Prior = Prior(path: string, existed: bool, content: string)

  function Restore(files: Files, p: Prior): Files {
    if p.existed then files[p.path := p.content] else files - {p.path}
  }

  /** The log undone from its last entry to its first. */
  function Undo(files: Files, log: seq<Prior>): Files
    decreases |log|
  {
    if log == [] then files else Undo(Restore(files, log[|log| - 1]), log[..|log| - 1])
  }

  function Record(files: Files, path: string): Prior {
    if path in files then Prior(path, true, files[path]) else Prior(path, false, "")
  }

  /** The edits written one after the other, left to right. */
  function Written(resolve: string -> string, files: Files, edits: seq<Edit>): Files {
    if edits == [] then files
    else
      var e := edits[|edits| - 1];
      Written(resolve, files, edits[..|edits| - 1])[resolve(e.path) := e.content]
  }

  /** Undoing one more write at the recorded path first. */
  lemma UndoSnoc(files: Files, log: seq<Prior>, p: Prior)
    ensures Undo(files, log + [p]) == Undo(Restore(files, p), log)
  {
    assert (log + [p])[..|log|] == log;
  }

  lemma RestoreUndoesWrite(files: Files, path: string, content: string)
    ensures Restore(files[path := content], Record(files, path)) == files
    ensures Restore(files, Record(files, path)) == files
  {
  }

  // ---------------------------------------------------------------- a rollback that itself meets failures

  /**
   * What one step of a rollback does: restores the recorded state, or fails and leaves anything or nothing at the path.
   */
  datatype Back = Restored | Left(content: Option<string>)

  function PutBack(files: Files, p: Prior, b: Back): Files {
    match b
    case Restored => Restore(files, p)
    case Left(None) => files - {p.path}
    case Left(Some(c)) => files[p.path := c]
  }

  /** The log undone from its last entry to its first, failures ignored. */
  function UndoWith(files: Files, log: seq<Prior>, back: nat -> Back): Files
    decreases |log|
  {
    if log == [] then files
    else
      var n := |log| - 1;
      UndoWith(PutBack(files, log[n], back(n)), log[..n], back)
  }

  function Get(files: Files, path: string): Option<string> { if path in files then Some(files[path]) else None }

  /** The oldest entry for a path, or |log|. */
  function Oldest(log: seq<Prior>, path: string): (k: nat)
    ensures k <= |log|
    ensures k < |log| ==> log[k].path == path
    ensures forall j :: 0 <= j < k ==> log[j].path != path
  {
    if log == [] then 0
    else
      var n := |log| - 1;
      var k := Oldest(log[..n], path);
      if k == n && log[n].path != path then n + 1 else k
  }

  function Recorded(p: Prior): Option<string> { if p.existed then Some(p.content) else None }

  /** What one step of a rollback leaves at its path. */
  function LeftBy(p: Prior, b: Back): Option<string> {
    match b
    case Restored => Recorded(p)
    case Left(content) => content
  }

  /** The oldest entry decides what a path ends with, and a path without one is as it was. */
  lemma {:induction false} OldestDecides(files: Files, log: seq<Prior>, back: nat -> Back, path: string)
    ensures var k := Oldest(log, path);
            Get(UndoWith(files, log, back), path) == if k < |log| then LeftBy(log[k], back(k)) else Get(files, path)
    decreases |log|
  {
    if log != [] {
      var n := |log| - 1;
      OldestDecides(PutBack(files, log[n], back(n)), log[..n], back, path);
    }
  }

  lemma {:induction false} AllRestored(files: Files, log: seq<Prior>, back: nat -> Back)
    requires forall i: nat :: i < |log| ==> back(i) == Restored
    ensures UndoWith(files, log, back) == Undo(files, log)
    decreases |log|
  {
    if log != [] {
      var n := |log| - 1;
      AllRestored(Restore(files, log[n]), log[..n], back);
    }
  }

  /** A path is what a rollback without failures makes it exactly when its oldest entry left what it had recorded. */
  lemma RestoredExactly(files: Files, log: seq<Prior>, back: nat -> Back, path: string)
    ensures var k := Oldest(log, path);
            Get(UndoWith(files, log, back), path) == Get(Undo(files, log), path)
            <==> (k < |log| ==> LeftBy(log[k], back(k)) == Recorded(log[k]))
  {
    var sound: nat -> Back := i => Restored;
    OldestDecides(files, log, back, path);
    OldestDecides(files, log, sound, path);
    AllRestored(files, log, sound);
  }

  /** The first edit that goes to a path, or |edits|: the entry that decides what a rollback leaves there. */
  function FirstEdit(resolve: string -> string, edits: seq<Edit>, path: string): (k: nat)
    ensures k <= |edits|
    ensures k < |edits| ==> resolve(edits[k].path) == path
    ensures forall j :: 0 <= j < k ==> resolve(edits[j].path) != path
  {
    if edits == [] then 0
    else
      var n := |edits| - 1;
      var k := FirstEdit(resolve, edits[..n], path);
      if k == n && resolve(edits[n].path) != path then n + 1 else k
  }

  ghost predicate Logs(log: seq<Prior>, resolve: string -> string, edits: seq<Edit>) {
    |log| <= |edits| && forall i :: 0 <= i < |log| ==> log[i].path == resolve(edits[i].path)
  }

  /** The rollback met no failure at the first edit to this path. */
  predicate RolledBack(resolve: string -> string, edits: seq<Edit>, back: nat -> Back, path: string) {
    var k := FirstEdit(resolve, edits, path); k < |edits| ==> back(k) == Restored
  }

  lemma RolledBackPath(resolve: string -> string, edits: seq<Edit>, back: nat -> Back, files: Files, log: seq<Prior>,
          path: string)
    requires Logs(log, resolve, edits) && RolledBack(resolve, edits, back, path)
    ensures Get(UndoWith(files, log, back), path) == Get(Undo(files, log), path)
  {
    var j, k := Oldest(log, path), FirstEdit(resolve, edits, path);
    assert j < |log| ==> j == k;
    RestoredExactly(files, log, back, path);
  }

  lemma RollbackRecovers(resolve: string -> string, edits: seq<Edit>, back: nat -> Back, files: Files, log: seq<Prior>)
    requires Logs(log, resolve, edits)
    ensures forall path ::
              RolledBack(resolve, edits, back, path) ==>
                Get(UndoWith(files, log, back), path) == Get(Undo(files, log), path)
    ensures (forall i :: back(i) == Restored) ==> UndoWith(files, log, back) == Undo(files, log)
  {
    forall path | RolledBack(resolve, edits, back, path)
      ensures Get(UndoWith(files, log, back), path) == Get(Undo(files, log), path)
    {
      RolledBackPath(resolve, edits, back, files, log, path);
    }
    if forall i :: back(i) == Restored {
      AllRestored(files, log, back);
    }
  }

  // ---------------------------------------------------------------- what a drive asks and reports

  /** The statistics and the patch header a drive returns. */
  datatype Diff = Diff(turns: nat, toolCalls: nat, tokens: nat, validToolCalls: nat, patch: string)

  const NO_DIFF := Diff(0, 0, 0, 0, "")

  /** One more reply, which parsed or not. */
  function Count(d: Diff, content: string, valid: bool): Diff {
    d.(turns := d.turns + 1, toolCalls := d.toolCalls + 1, tokens := d.tokens + Bytes(content),
       validToolCalls := d.validToolCalls + if valid then 1 else 0)
  }

  /** What has been counted when the asking is over. */
  function CountFrom(replies: nat -> Option<string>, i: nat, retries: int, d: Diff): Diff
    decreases retries + 1 - i
  {
    if i > retries || replies(i) == None then d
    else
      var valid := Parse(replies(i).value).Found?;
      var d' := Count(d, replies(i).value, valid);
      if valid then d' else CountFrom(replies, i + 1, retries, d')
  }

  /** The bytes of n replies from the i-th on. */
  ghost function Received(replies: nat -> Option<string>, i: nat, n: nat): nat
    decreases n
  {
    if n == 0 then 0
    else (match replies(i) case Some(content) => Bytes(content) case None => 0) + Received(replies, i + 1, n - 1)
  }

  /** The n replies from the i-th on are all that come: none before the last parses, and then the asking ends. */
  ghost predicate Asked(replies: nat -> Option<string>, i: nat, n: int, retries: int) {
    && 0 <= n && (i > retries ==> n == 0) && (i <= retries ==> i + n <= retries + 1)
    && (forall j :: i <= j < i + n ==> replies(j).Some?)
    && (forall j :: i <= j < i + n - 1 ==> !Parse(replies(j).value).Found?)
    && (i + n > retries || replies(i + n) == None || (n > 0 && Parse(replies(i + n - 1).value).Found?))
  }

  /** Every reply that was asked for is counted; their bytes are the tokens; a valid one exactly when one completed. */
  lemma {:induction false} CountsAddUp(replies: nat -> Option<string>, i: nat, retries: int, d: Diff)
    ensures var e := CountFrom(replies, i, retries, d);
            e.turns - d.turns == e.toolCalls - d.toolCalls
            && Asked(replies, i, e.turns - d.turns, retries)
            && e.tokens - d.tokens == Received(replies, i, e.turns - d.turns)
            && e.validToolCalls - d.validToolCalls
               == (if i <= retries && ChatFrom(replies, i, retries).Completed? then 1 else 0)
            && e.patch == d.patch
    decreases retries + 1 - i
  {
    hide Parse;
    if i <= retries && replies(i).Some? {
      var valid := Parse(replies(i).value).Found?;
      if !valid {
        CountsAddUp(replies, i + 1, retries, Count(d, replies(i).value, valid));
      }
    }
  }

  /** renderPatch. */
  function Patch(edits: seq<Edit>): string {
    if edits == [] then ""
    else
      var path := edits[|edits| - 1].path;
      Patch(edits[..|edits| - 1]) + ("--- a/" + path + "\n+++ b/" + path + "\n")
  }

  lemma NothingApplied(resolve: string -> string, files: Files, edits: seq<Edit>)
    ensures Undo(files, []) == files && Written(resolve, files, edits[..0]) == files && Logs([], resolve, edits)
  {
  }

  /** Recording and writing one more edit. */
  lemma OneMoreApplied(resolve: string -> string, was: Files, edits: seq<Edit>, files: Files, log: seq<Prior>)
    requires |log| < |edits| && Logs(log, resolve, edits)
    ensures var i, abs := |log|, resolve(edits[|log|].path);
            && Logs(log + [Record(files, abs)], resolve, edits)
            && Written(resolve, was, edits[..i + 1]) == Written(resolve, was, edits[..i])[abs := edits[i].content]
  {
    assert edits[..|log| + 1][..|log|] == edits[..|log|];
  }

  datatype Chat = Completed(edits: seq<Edit>) | ClientError | Unparseable

  /** Ask again while the reply does not parse, up to retries + 1 times in all. */
  function ChatFrom(replies: nat -> Option<string>, i: nat, retries: int): Chat
    decreases retries + 1 - i
  {
    if i > retries then (if retries < 0 then Completed([]) else Unparseable)
    else
      match replies(i)
      case None => ClientError
      case Some(content) =>
        match Parse(content)
        case Found(edits) => Completed(edits)
        case Failed(_) => ChatFrom(replies, i + 1, retries)
  }

  datatype Outcome = Done | CompletionError | ParseFailed | Refused(path: string) | ApplyFailed | TestError | TestFailed

  /** The first edit whose path leaves the workspace, or |edits|. */
  function FirstUnsafe(safe: string -> bool, edits: seq<Edit>): (k: nat)
    ensures k <= |edits|
    ensures k < |edits| ==> !safe(edits[k].path)
    ensures forall j :: 0 <= j < k ==> safe(edits[j].path)
  {
    if edits == [] || !safe(edits[0].path) then 0
    else
      var k := FirstUnsafe(safe, edits[1..]);
      assert forall j :: 0 < j < k + 1 ==> edits[j] == edits[1..][j - 1];
      k + 1
  }

  predicate AllSound(faults: nat -> Fault, n: nat) { forall i :: 0 <= i < n ==> faults(i) == Sound }

  /** How Drive ends, from what the model, the file system and the test answer. */
  function DriveOutcome(replies: nat -> Option<string>, retries: int, safe: string -> bool, faults: nat -> Fault,
          test: Option<bool>): Outcome {
    match ChatFrom(replies, 0, retries)
    case ClientError => CompletionError
    case Unparseable => ParseFailed
    case Completed(edits) =>
      var k := FirstUnsafe(safe, edits);
      if k < |edits| then Refused(edits[k].path)
      else if !AllSound(faults, |edits|) then ApplyFailed
      else if test == None then TestError
      else if test == Some(false) then TestFailed
      else Done
  }

  class Adapter {
    const resolve: string -> string
    const safe: string -> bool
    const retries: int
    var files: Files

    constructor (resolve: string -> string, safe: string -> bool, retries: int, files: Files)
      ensures this.resolve == resolve && this.safe == safe && this.retries == retries && this.files == files
    {
      this.resolve, this.safe, this.retries, this.files := resolve, safe, retries, files;
    }

    /** applyEdits: record, then write, one edit at a time; the log undoes whatever was done, finished or not. */
    method ApplyEdits(edits: seq<Edit>, faults: nat -> Fault) returns (log: seq<Prior>, ok: bool)
      modifies this
      ensures Undo(files, log) == old(files) && Logs(log, resolve, edits)
      ensures ok == AllSound(faults, |edits|)
      ensures ok ==> files == Written(resolve, old(files), edits)
    {
      hide Undo, Written, Logs, Restore, Record;
      log := [];
      NothingApplied(resolve, files, edits);
      for i := 0 to |edits|
        invariant Undo(files, log) == old(files) && |log| == i && Logs(log, resolve, edits)
        invariant AllSound(faults, i)
        invariant files == Written(resolve, old(files), edits[..i])
      {
        var e := edits[i];
        var abs := resolve(e.path);
        var p := Record(files, abs);
        UndoSnoc(files, log, p);
        RestoreUndoesWrite(files, abs, e.content);
        OneMoreApplied(resolve, old(files), edits, files, log);
        match faults(i) {
          case MkdirFails =>
            return log + [p], false;
          case WriteFails(left) =>
            if left.Some? {
              RestoreUndoesWrite(files, abs, left.value);
              UndoSnoc(files[abs := left.value], log, p);
              files := files[abs := left.value];
            }
            return log + [p], false;
          case Sound =>
            UndoSnoc(files[abs := e.content], log, p);
            files := files[abs := e.content];
            log := log + [p];
        }
      }
      assert edits[..|edits|] == edits;
      ok := true;
    }

    /** rollback: newest first, so that a path written twice gets its oldest content back; failures are ignored. */
    method Rollback(log: seq<Prior>, back: nat -> Back)
      modifies this
      ensures files == UndoWith(old(files), log, back)
    {
      var i := |log| - 1;
      assert log[..i + 1] == log;
      while i >= 0
        invariant -1 <= i < |log|
        invariant UndoWith(files, log[..i + 1], back) == UndoWith(old(files), log, back)
      {
        assert log[..i + 1][..i] == log[..i];
        files := PutBack(files, log[i], back(i));
        i := i - 1;
      }
    }

    method Ask(replies: nat -> Option<string>) returns (chat: Chat, diff: Diff)
      ensures chat == ChatFrom(replies, 0, retries) && diff == CountFrom(replies, 0, retries, NO_DIFF)
    {
      hide Parse, Bytes;
      diff := NO_DIFF;
      if retries < 0 {
        return Completed([]), diff;
      }
      var attempt := 0;
      while attempt <= retries
        invariant 0 <= attempt
        invariant ChatFrom(replies, attempt, retries) == ChatFrom(replies, 0, retries)
        invariant CountFrom(replies, attempt, retries, diff) == CountFrom(replies, 0, retries, NO_DIFF)
      {
        var reply := replies(attempt);
        if reply == None {
          return ClientError, diff;
        }
        var p := ParseEdits(reply.value);
        diff := Count(diff, reply.value, p.Found?);
        if p.Found? {
          return Completed(p.edits), diff;
        }
        attempt := attempt + 1;
      }
      chat := Unparseable;
    }

    /** What an error leaves: every path whose first edit was rolled back without a failure is as it was. */
    twostate predicate Recovered(replies: nat -> Option<string>, back: nat -> Back)
      reads this
    {
      match ChatFrom(replies, 0, retries)
      case Completed(edits) =>
        forall path :: RolledBack(resolve, edits, back, path) ==> Get(files, path) == Get(old(files), path)
      case _ => files == old(files)
    }

    /**
     * Drive: the files are the edits left to right on success, and on every error what they were, as far as the
     * rollback goes.
     */
    method Drive(replies: nat -> Option<string>, faults: nat -> Fault, test: Option<bool>, back: nat -> Back)
      returns (outcome: Outcome, diff: Diff)
      modifies this
      ensures outcome == DriveOutcome(replies, retries, safe, faults, test)
      ensures OutcomeMeans(replies, retries, safe, faults, test, outcome)
      ensures outcome.CompletionError? || outcome.ParseFailed? || outcome.Refused? ==> files == old(files)
      ensures outcome != Done ==> Recovered(replies, back)
      ensures outcome != Done && (forall i :: back(i) == Restored) ==> files == old(files)
      ensures outcome == Done ==>
                ChatFrom(replies, 0, retries).Completed?
                && files == Written(resolve, old(files), ChatFrom(replies, 0, retries).edits)
      ensures diff == CountFrom(replies, 0, retries, NO_DIFF).(patch :=
                if outcome == Done then Patch(ChatFrom(replies, 0, retries).edits) else "")
    {
      hide ChatFrom, CountFrom, Parse, Written, Patch, OutcomeMeans;
      OutcomeExactly(replies, retries, safe, faults, test);
      var chat;
      chat, diff := Ask(replies);
      CountsAddUp(replies, 0, retries, NO_DIFF);
      if chat == ClientError {
        return CompletionError, diff;
      }
      if chat == Unparseable {
        return ParseFailed, diff;
      }
      var edits := chat.edits;
      for i := 0 to |edits|
        invariant forall j :: 0 <= j < i ==> safe(edits[j].path)
      {
        if !safe(edits[i].path) {
          assert FirstUnsafe(safe, edits) == i;
          return Refused(edits[i].path), diff;
        }
      }
      var log, ok := ApplyEdits(edits, faults);
      if !ok {
        RollbackRecovers(resolve, edits, back, files, log);
        Rollback(log, back);
        return ApplyFailed, diff;
      }
      if test == None {
        RollbackRecovers(resolve, edits, back, files, log);
        Rollback(log, back);
        return TestError, diff;
      }
      if test == Some(false) {
        RollbackRecovers(resolve, edits, back, files, log);
        Rollback(log, back);
        return TestFailed, diff;
      }
      outcome, diff := Done, diff.(patch := Patch(edits));
    }
  }

  // ---------------------------------------------------------------- what the edits left to right mean

  /** A path no edit resolves to keeps what it had. */
  lemma {:induction false} UntouchedPath(resolve: string -> string, files: Files, edits: seq<Edit>, path: string)
    requires forall i :: 0 <= i < |edits| ==> resolve(edits[i].path) != path
    ensures var w := Written(resolve, files, edits);
            (path in w <==> path in files) && (path in w ==> w[path] == files[path])
  {
    if edits != [] {
      UntouchedPath(resolve, files, edits[..|edits| - 1], path);
    }
  }

  /** Among the edits that resolve to a path the last decides its content. */
  lemma {:induction false} LastEditWins(resolve: string -> string, files: Files, edits: seq<Edit>, i: nat)
    requires i < |edits| && forall j :: i < j < |edits| ==> resolve(edits[j].path) != resolve(edits[i].path)
    ensures var w, path := Written(resolve, files, edits), resolve(edits[i].path);
            path in w && w[path] == edits[i].content
  {
    if i < |edits| - 1 {
      var front := edits[..|edits| - 1];
      assert front[i] == edits[i];
      LastEditWins(resolve, files, front, i);
      assert resolve(edits[|edits| - 1].path) != resolve(edits[i].path);
    }
  }

  /**
   * Drive succeeds without asking for anything only when it may not ask at all; otherwise it wrote at least one
   * printable edit.
   */
  lemma {:induction false} CompletedEdits(replies: nat -> Option<string>, i: nat, retries: int)
    requires ChatFrom(replies, i, retries).Completed?
    ensures var es := ChatFrom(replies, i, retries).edits;
            (es == [] <==> retries < 0) && forall e :: e in es ==> EditFormat.Printable(e)
    decreases retries + 1 - i
  {
    if i <= retries {
      match replies(i)
      case None =>
      case Some(content) =>
        match Parse(content)
        case Found(edits) =>
          EditFormat.ParserImage(edits);
          assert Parse(content) == Found(edits);
        case Failed(_) =>
          CompletedEdits(replies, i + 1, retries);
    }
  }

  // ---------------------------------------------------------------- how a drive ends, of what it was given

  /** The first k replies came and did not parse. */
  ghost predicate Unparsed(replies: nat -> Option<string>, k: nat) {
    forall j :: 0 <= j < k ==> replies(j).Some? && Parse(replies(j).value).Failed?
  }

  /** The k-th reply is the first that parses, to these edits. */
  ghost predicate ParsedAt(replies: nat -> Option<string>, retries: int, k: nat, edits: seq<Edit>) {
    k <= retries && Unparsed(replies, k) && replies(k).Some? && Parse(replies(k).value) == Found(edits)
  }

  /** The edits of the first reply that parses; none if nothing may be asked. */
  ghost predicate Yields(replies: nat -> Option<string>, retries: int, edits: seq<Edit>) {
    (retries < 0 && edits == []) || exists k: nat :: ParsedAt(replies, retries, k, edits)
  }

  ghost predicate Unanswered(replies: nat -> Option<string>, retries: int, k: nat) {
    k <= retries && Unparsed(replies, k) && replies(k) == None
  }

  ghost predicate AllSafe(safe: string -> bool, edits: seq<Edit>) {
    forall i :: 0 <= i < |edits| ==> safe(edits[i].path)
  }

  ghost predicate AllApplied(faults: nat -> Fault, edits: seq<Edit>) {
    forall i :: 0 <= i < |edits| ==> faults(i) == Sound
  }

  ghost predicate FirstUnsafePath(safe: string -> bool, edits: seq<Edit>, path: string) {
    exists i :: 0 <= i < |edits| && !safe(edits[i].path) && edits[i].path == path
             && forall j :: 0 <= j < i ==> safe(edits[j].path)
  }

  /** Which outcome follows from which answers. */
  ghost predicate OutcomeMeans(replies: nat -> Option<string>, retries: int, safe: string -> bool,
          faults: nat -> Fault, test: Option<bool>, outcome: Outcome) {
    && (outcome == CompletionError <==> exists k: nat :: Unanswered(replies, retries, k))
    && (outcome == ParseFailed <==> retries >= 0 && Unparsed(replies, retries + 1))
    && (forall path ::
          outcome == Refused(path) <==>
          exists edits: seq<Edit> :: Yields(replies, retries, edits) && FirstUnsafePath(safe, edits, path))
    && (outcome == ApplyFailed <==>
          exists edits :: Yields(replies, retries, edits) && AllSafe(safe, edits) && !AllApplied(faults, edits))
    && (outcome == TestError <==>
          exists edits ::
            Yields(replies, retries, edits) && AllSafe(safe, edits) && AllApplied(faults, edits) && test == None)
    && (outcome == TestFailed <==>
          exists edits ::
            Yields(replies, retries, edits) && AllSafe(safe, edits) && AllApplied(faults, edits) && test == Some(false))
    && (outcome == Done <==>
          exists edits ::
            Yields(replies, retries, edits) && AllSafe(safe, edits) && AllApplied(faults, edits) && test == Some(true))
  }

  lemma {:induction false} ChatAt(replies: nat -> Option<string>, i: nat, retries: int) returns (k: nat)
    requires 0 <= retries && i <= retries + 1 && Unparsed(replies, i)
    ensures match ChatFrom(replies, i, retries)
            case Completed(edits) => ParsedAt(replies, retries, k, edits)
            case ClientError => Unanswered(replies, retries, k)
            case Unparseable => Unparsed(replies, retries + 1)
    decreases retries + 1 - i
  {
    hide Parse;
    k := i;
    if i <= retries && replies(i).Some? && Parse(replies(i).value).Failed? {
      k := ChatAt(replies, i + 1, retries);
    }
  }

  lemma OneChat(replies: nat -> Option<string>, retries: int)
    ensures forall a, b :: Yields(replies, retries, a) && Yields(replies, retries, b) ==> a == b
    ensures (exists k: nat :: Unanswered(replies, retries, k)) ==>
              !(retries >= 0 && Unparsed(replies, retries + 1)) && forall a :: !Yields(replies, retries, a)
    ensures retries >= 0 && Unparsed(replies, retries + 1) ==> forall a :: !Yields(replies, retries, a)
  {
    hide Parse;
    forall a, b, j: nat, k: nat | ParsedAt(replies, retries, j, a) && ParsedAt(replies, retries, k, b) ensures j == k {
    }
    forall a, j: nat, k: nat | ParsedAt(replies, retries, j, a) && Unanswered(replies, retries, k) ensures false {
    }
  }

  lemma ChatExactly(replies: nat -> Option<string>, retries: int)
    ensures var chat := ChatFrom(replies, 0, retries);
            && (chat == ClientError <==> exists k: nat :: Unanswered(replies, retries, k))
            && (chat == Unparseable <==> retries >= 0 && Unparsed(replies, retries + 1))
            && forall edits :: chat == Completed(edits) <==> Yields(replies, retries, edits)
  {
    hide Parse;
    OneChat(replies, retries);
    if retries >= 0 {
      var k := ChatAt(replies, 0, retries);
      hide ChatFrom, Unparsed, ParsedAt;
    }
  }

  lemma OutcomeExactly(replies: nat -> Option<string>, retries: int, safe: string -> bool, faults: nat -> Fault,
          test: Option<bool>)
    ensures OutcomeMeans(replies, retries, safe, faults, test, DriveOutcome(replies, retries, safe, faults, test))
  {
    hide ChatFrom, Parse, Yields, Unanswered, Unparsed;
    ChatExactly(replies, retries);
    if ChatFrom(replies, 0, retries).Completed? {
      var edits := ChatFrom(replies, 0, retries).edits;
      assert Yields(replies, retries, edits);
      FirstUnsafeMeans(safe, edits);
      assert AllSound(faults, |edits|) <==> AllApplied(faults, edits);
      hide FirstUnsafe, FirstUnsafePath, AllSafe, AllApplied, AllSound;
      var out := DriveOutcome(replies, retries, safe, faults, test);
      assert forall e: seq<Edit> :: Yields(replies, retries, e) ==> e == edits;
      TestAnswers(test);
    }
  }

  lemma TestAnswers(test: Option<bool>)
    ensures test == None || test == Some(true) || test == Some(false)
  {
    match test
    case None =>
    case Some(ok) =>
      if ok {
        assert test == Some(true);
      } else {
        assert test == Some(false);
      }
  }

  lemma FirstUnsafeMeans(safe: string -> bool, edits: seq<Edit>)
    ensures var k := FirstUnsafe(safe, edits);
            && (k == |edits| <==> AllSafe(safe, edits))
            && forall path :: FirstUnsafePath(safe, edits, path) <==> k < |edits| && edits[k].path == path
  {
    var k := FirstUnsafe(safe, edits);
    hide FirstUnsafe;
    forall path | FirstUnsafePath(safe, edits, path) ensures k < |edits| && edits[k].path == path {
      var i :| 0 <= i < |edits| && !safe(edits[i].path) && edits[i].path == path
               && forall j :: 0 <= j < i ==> safe(edits[j].path);
      assert k == i;
    }
  }

  /** The patch names each edited path in order. */
  lemma PatchReads(edits: seq<Edit>, e: Edit)
    ensures Patch([]) == "" && Patch(edits + [e]) == Patch(edits) + ("--- a/" + e.path + "\n+++ b/" + e.path + "\n")
  {
    assert (edits + [e])[..|edits|] == edits;
  }
}
