// The note operations as the source runs them, one call at a time, while other
// programs may edit the vault in the gaps between their steps.
module NoteOperations {
  import opened NoteTransactions
  import opened Options

  datatype ExternalEdit = ExternalEdit(path: Path, text: Option<Text>)

  function AfterEdits(c: Contents, edits: seq<ExternalEdit>): Contents {
    if edits == [] then c
    else
      var before, e := AfterEdits(c, edits[..|edits| - 1]), edits[|edits| - 1];
      if e.text == None then before - {e.path} else before[e.path := e.text.value]
  }

  lemma {:induction false} AfterEditsAppend(c: Contents, s: seq<ExternalEdit>, t: seq<ExternalEdit>)
    ensures AfterEdits(c, s + t) == AfterEdits(AfterEdits(c, s), t)
  {
    if t == [] {
      assert s + t == s;
    } else {
      assert (s + t)[..|s + t| - 1] == s + t[..|t| - 1];
      AfterEditsAppend(c, s, t[..|t| - 1]);
    }
  }

  ghost predicate Touches(edits: seq<ExternalEdit>, p: Path) {
    exists i :: 0 <= i < |edits| && edits[i].path == p
  }

  lemma TouchesAppend(s: seq<ExternalEdit>, t: seq<ExternalEdit>, p: Path)
    ensures Touches(s + t, p) <==> Touches(s, p) || Touches(t, p)
  {
    if i :| 0 <= i < |s| && s[i].path == p {
      assert (s + t)[i].path == p;
    }
    if i :| 0 <= i < |t| && t[i].path == p {
      assert (s + t)[|s| + i].path == p;
    }
  }

  // Edits that happen between two steps of a call.
  datatype Gaps = Gaps(afterObserve: seq<ExternalEdit>, afterRead: seq<ExternalEdit>, beforeCheck: seq<ExternalEdit>)

  lemma NothingTouched()
    ensures forall p :: !Touches([], p)
  {
  }

  lemma OneMoreTouched(s: seq<ExternalEdit>, e: ExternalEdit)
    ensures forall p :: Touches(s + [e], p) <==> Touches(s, p) || e.path == p
  {
    forall p
      ensures Touches(s + [e], p) <==> Touches(s, p) || e.path == p
    {
      TouchesAppend(s, [e], p);
      assert Touches([e], p) <==> [e][0].path == p;
    }
  }

  // What edits by other programs do to the files: a file they touched is gone or has a
  // revision from `next` on, and every other file is as before.
  ghost predicate Edited(before: Files, after: Files, edits: seq<ExternalEdit>, next: nat) {
    && TextsOf(after) == AfterEdits(TextsOf(before), edits)
    && (forall p :: p in after && after[p].revision < next ==> p in before && after[p] == before[p])
    && (forall p :: Touches(edits, p) ==> p !in after || after[p].revision >= next)
    && (forall p :: !Touches(edits, p) ==> Revision(after, p) == Revision(before, p))
  }

  function EditFile(files: Files, e: ExternalEdit, revision: nat): Files {
    if e.text == None then files - {e.path} else files[e.path := File(e.text.value, revision)]
  }

  lemma TextsOfEdit(files: Files, e: ExternalEdit, revision: nat)
    ensures TextsOf(EditFile(files, e, revision)) ==
            if e.text == None then TextsOf(files) - {e.path} else TextsOf(files)[e.path := e.text.value]
  {
  }

  lemma OneMoreEdit(before: Files, files: Files, edits: seq<ExternalEdit>, e: ExternalEdit, next: nat, revision: nat)
    requires Edited(before, files, edits, next) && next <= revision
    ensures Edited(before, EditFile(files, e, revision), edits + [e], next)
  {
    hide TextsOf, Touches;
    TextsOfEdit(files, e, revision);
    OneMoreTouched(edits, e);
    assert (edits + [e])[..|edits|] == edits;
  }

  class NoteStore {
    const limit: nat
    var files: Files
    var nextRevision: nat
    // The texts of deleted notes, by their name in the trash folder.
    var trash: map<Path, Text>

    ghost predicate Valid()
      reads this
    {
      forall p :: p in files ==> files[p].revision < nextRevision
    }

    constructor (limit: nat)
      ensures Valid() && files == map[] && trash == map[] && this.limit == limit
    {
      this.limit, files, nextRevision, trash := limit, map[], 0, map[];
    }

    // Other programs writing and removing files.
    method Interfere(edits: seq<ExternalEdit>)
      requires Valid()
      modifies this`files, this`nextRevision
      ensures Valid() && nextRevision >= old(nextRevision)
      ensures Edited(old(files), files, edits, old(nextRevision))
    {
      ghost var before := files;
      assert Edited(before, files, edits[..0], nextRevision) by { NothingTouched(); }
      hide Edited, TextsOf, Touches;
      for i := 0 to |edits|
        invariant Valid() && nextRevision >= old(nextRevision)
        invariant Edited(before, files, edits[..i], old(nextRevision))
      {
        var e := edits[i];
        OneMoreEdit(before, files, edits[..i], e, old(nextRevision), nextRevision);
        assert edits[..i + 1] == edits[..i] + [e];
        if e.text == None {
          files := files - {e.path};
        } else {
          files := files[e.path := File(e.text.value, nextRevision)];
          nextRevision := nextRevision + 1;
        }
      }
      assert edits[..|edits|] == edits;
    }

    // `safe_write_text` with its revision check; the check and the replacement are one step.
    method SafeWriteText(p: Path, text: Text, expected: Option<nat>, writeFails: bool) returns (verdict: Verdict)
      requires Valid()
      modifies this`files, this`nextRevision
      ensures Valid()
      ensures verdict == if writeFails then Failed
                         else if Revision(old(files), p) == expected then Success else Conflict
      ensures verdict == Success ==> TextsOf(files) == TextsOf(old(files))[p := text]
      ensures verdict != Success ==> files == old(files)
    {
      if writeFails {
        return Failed;
      }
      if Revision(files, p) != expected {
        return Conflict;
      }
      ghost var texts := TextsOf(files);
      files := files[p := File(text, nextRevision)];
      nextRevision := nextRevision + 1;
      assert TextsOf(files) == texts[p := text];
      return Success;
    }

    // What every operation promises: on success the files are the operation applied, whole,
    // to the vault with all edits that happened during the call; otherwise just those edits.
    twostate predicate Atomic(op: Op, verdict: Verdict, edits: seq<ExternalEdit>)
      reads this
    {
      var vault := AfterEdits(TextsOf(old(files)), edits);
      if verdict == Success then Effect(op, vault, TextsOf(files), limit)
      else TextsOf(files) == vault
    }

    // `create_note`
    method CreateNote(p: Path, text: Text, gaps: Gaps, writeFails: bool)
      returns (verdict: Verdict, ghost edits: seq<ExternalEdit>)
      requires Valid()
      modifies this`files, this`nextRevision
      ensures Valid() && Atomic(Create(p, text), verdict, edits)
      ensures verdict == if p in old(files) then Refused else if writeFails then Failed
                         else if p in AfterEdits(TextsOf(old(files)), edits) then Conflict else Success
      ensures edits == if p in old(files) then [] else gaps.beforeCheck
    {
      edits := [];
      if p in files {
        return Refused, [];
      }
      Interfere(gaps.beforeCheck);
      edits := gaps.beforeCheck;
      verdict := SafeWriteText(p, text, None, writeFails);
    }

    // `write_note`
    method WriteNote(p: Path, text: Text, gaps: Gaps, writeFails: bool)
      returns (verdict: Verdict, ghost edits: seq<ExternalEdit>)
      requires Valid()
      modifies this`files, this`nextRevision
      ensures Valid() && Atomic(Write(p, text), verdict, edits) && edits == gaps.beforeCheck
      ensures verdict == if writeFails then Failed
                         else if (if p in old(files) then Touches(edits, p) else p in AfterEdits(TextsOf(old(files)), edits))
                         then Conflict else Success
    {
      hide Touches;
      var revision := Revision(files, p);
      Interfere(gaps.beforeCheck);
      edits := gaps.beforeCheck;
      verdict := SafeWriteText(p, text, revision, writeFails);
    }

    // The common shape of `append_note`, `update_frontmatter`, `ensure_note_id` and
    // `_persist_generated_frontmatter`: observe, read, observe again, compute, write.
    method ReadModifyWrite(op: Op, gaps: Gaps, writeFails: bool)
      returns (verdict: Verdict, ghost edits: seq<ExternalEdit>)
      requires Valid() && Reads(op)
      modifies this`files, this`nextRevision
      ensures Valid() && Atomic(op, verdict, edits)
      ensures op.path !in old(files) ==> verdict == Refused && edits == []
      ensures op.path in old(files) ==>
                verdict == if op.path !in AfterEdits(TextsOf(old(files)), gaps.afterObserve) then Failed
                           else if Touches(gaps.afterObserve + gaps.afterRead, op.path) then Conflict
                           else if Refuses(op, old(files)[op.path].text, limit) then Refused
                           else if Keeps(op, old(files)[op.path].text) then Success
                           else if writeFails then Failed
                           else if Touches(gaps.beforeCheck, op.path) then Conflict else Success
      ensures op.path in old(files) ==>
                edits == if op.path !in AfterEdits(TextsOf(old(files)), gaps.afterObserve) then gaps.afterObserve
                         else gaps.afterObserve + gaps.afterRead
                              + if Touches(gaps.afterObserve + gaps.afterRead, op.path)
                                   || Refuses(op, old(files)[op.path].text, limit) || Keeps(op, old(files)[op.path].text)
                                then [] else gaps.beforeCheck
      ensures op.path in old(files) && Touches(edits, op.path) ==> verdict in {Conflict, Failed}
    {
      hide Touches, Effect, Refuses, Keeps, Computed;
      var p := op.path;
      edits := [];
      ghost var start := TextsOf(files);
      TouchesAppend(gaps.afterObserve, gaps.afterRead, p);
      TouchesAppend(gaps.afterObserve + gaps.afterRead, gaps.beforeCheck, p);
      if p !in files {
        return Refused, [];
      }
      var revision := Revision(files, p);
      Interfere(gaps.afterObserve);
      edits := gaps.afterObserve;
      if p !in files {
        return Failed, edits;
      }
      var text := files[p].text;
      Interfere(gaps.afterRead);
      AfterEditsAppend(start, edits, gaps.afterRead);
      edits := edits + gaps.afterRead;
      if Revision(files, p) != revision {
        return Conflict, edits;
      }
      ComputedMeans(op, text, limit);
      ComputedHasEffect(op, TextsOf(files), limit);
      match Computed(op, text, limit) {
        case Refuse => verdict := Refused;
        case Keep => verdict := Success;
        case NewText(next) =>
          Interfere(gaps.beforeCheck);
          AfterEditsAppend(start, edits, gaps.beforeCheck);
          edits := edits + gaps.beforeCheck;
          if p in files {
            ComputedHasEffect(op, TextsOf(files), limit);
          }
          verdict := SafeWriteText(p, next, revision, writeFails);
      }
    }

    // `move_note`, which renames the file under both locks.
    method MoveNote(p: Path, to: Path, gaps: Gaps, moveFails: bool)
      returns (verdict: Verdict, ghost edits: seq<ExternalEdit>)
      requires Valid()
      modifies this`files, this`nextRevision
      ensures Valid() && Atomic(Move(p, to), verdict, edits)
      ensures p !in old(files) || to in old(files) ==> verdict == Refused && edits == []
      ensures p in old(files) && to !in old(files) ==>
                && edits == gaps.beforeCheck
                && verdict == if Touches(edits, p) || to in AfterEdits(TextsOf(old(files)), edits) then Conflict
                              else if moveFails then Failed else Success
    {
      hide Touches;
      edits := [];
      if p !in files || to in files {
        return Refused, [];
      }
      var revision := Revision(files, p);
      Interfere(gaps.beforeCheck);
      edits := gaps.beforeCheck;
      if Revision(files, p) != revision || to in files {
        return Conflict, edits;
      }
      if moveFails {
        return Failed, edits;
      }
      ghost var texts := TextsOf(files);
      files := (files - {p})[to := files[p]];
      assert TextsOf(files) == (texts - {p})[to := texts[p]];
      verdict := Success;
    }

    // `delete_note`: moves the note to the first free one of ten names in the trash.
    // `names` are the note's own name and the random ones tried after it; `trashLater` is the
    // trash as other programs have left it when the note is moved. A name that was free and
    // has been taken since is overwritten.
    method DeleteNote(p: Path, names: seq<Path>, gaps: Gaps, trashLater: map<Path, Text>, moveFails: bool)
      returns (verdict: Verdict, ghost edits: seq<ExternalEdit>)
      requires Valid() && |names| == 10
      modifies this
      ensures Valid() && Atomic(Delete(p), verdict, edits)
      ensures verdict == if p !in old(files) || (forall n :: n in names ==> n in old(trash)) then Refused
                         else if Touches(edits, p) then Conflict
                         else if moveFails then Failed else Success
      ensures edits == if verdict == Refused then [] else gaps.beforeCheck
      ensures verdict == Refused ==> trash == old(trash)
      ensures verdict == Conflict || verdict == Failed ==> trash == trashLater
      ensures verdict == Success ==>
                exists k ::
                  && 0 <= k < 10 && names[k] !in old(trash) && (forall i :: 0 <= i < k ==> names[i] in old(trash))
                  && trash == trashLater[names[k] := old(files)[p].text]
    {
      hide Touches;
      edits := [];
      if p !in files {
        return Refused, [];
      }
      var revision := Revision(files, p);
      var attempt: nat := 0;
      while attempt < 10 && names[attempt] in trash
        invariant attempt <= 10 && forall i :: 0 <= i < attempt ==> names[i] in trash
      {
        attempt := attempt + 1;
      }
      if attempt == 10 {
        return Refused, [];
      }
      Interfere(gaps.beforeCheck);
      trash := trashLater;
      edits := gaps.beforeCheck;
      if Revision(files, p) != revision {
        return Conflict, edits;
      }
      if moveFails {
        return Failed, edits;
      }
      ghost var texts := TextsOf(files);
      trash := trash[names[attempt] := files[p].text];
      files := files - {p};
      assert TextsOf(files) == texts - {p};
      verdict := Success;
    }
  }
}
