/**
  The editor (sys/edit.c): a gap buffer with an undo history.  Each method is proved against the history's
  function of the same name, with the plain text in place of the buffer.
*/
module Editors {
  import opened GapBuffers
  import opened Options
  import opened UndoHistory

  class Editor {
    const buffer: GapBuffer
    var records: seq<Record>   // from undohead to undotail
    var done: nat              // the undo field points to record done - 1, or is null
    var head: Address          // undohead
    var dirty: bool
    ghost var freed: set<Address>   // addresses of freed records that were not handed out again
    ghost var base: seq<Byte>

    ghost predicate Valid()
      reads this, buffer
    {
      buffer.Valid() && done <= |records|
    }

    ghost function View(): History
      requires Valid()
      reads this, buffer, buffer.data
    {
      History(buffer.Text(), records, done, head, freed, dirty, base)
    }

    /** load_file into a new editor */
    constructor (text: seq<Byte>)
      ensures Valid() && View() == Loaded(text) && fresh(buffer) && fresh(buffer.data)
    {
      buffer := new GapBuffer(text);
      records, done, head, freed, dirty, base := [], 0, NULL, {}, false, text;
    }

    /** reset_undo: frees records from the tail on until the tail is at the boundary.  undohead is not
        touched, so it dangles afterwards exactly if the record that it points to was freed. */
    method Reset()
      requires Valid()
      modifies this`records, this`freed
      ensures Valid() && View() == ResetUndo(old(View()))
    {
      ghost var rs, gone := records, freed;
      while |records| != done
        invariant done <= |records| <= |rs| && records == rs[..|records|]
        invariant freed == gone + Ids(rs[|records|..])
        decreases |records|
      {
        TailFreed(rs, |records| - 1);
        freed := freed + {records[|records| - 1].id};
        records := records[..|records| - 1];
      }
    }

    /** The undo part of replace */
    method Remember(pos: nat, len: nat, buf: seq<Byte>, id: Address)
      requires Valid() && done == |records| && pos + len <= buffer.TextLength()
      modifies this`records, this`done, this`head, this`freed
      ensures Valid() && View() == Recorded(old(View()), pos, len, buf, id)
    {
      var n := |records|;
      if n > 0 && len == 0 && |buf| == 1 && records[n - 1].erased == [] &&
        pos == records[n - 1].pos + |records[n - 1].inserted| {
        var r := records[n - 1];
        records := records[..n - 1] + [r.(inserted := r.inserted + [buf[0]])];
        assert buf == [buf[0]];
      } else if n > 0 && len == 1 && |buf| == 0 && records[n - 1].inserted == [] && pos == records[n - 1].pos {
        var r := records[n - 1];
        var c := ByteAt(pos);
        records := records[..n - 1] + [r.(erased := r.erased + [c])];
      } else if n > 0 && len == 1 && |buf| == 0 && records[n - 1].inserted == [] && pos == records[n - 1].pos - 1 {
        var r := records[n - 1];
        var c := ByteAt(pos);
        records := records[..n - 1] + [Record(r.id, r.pos - 1, [c] + r.erased, [])];
      } else {
        NewRecord(pos, len, buf, id);
      }
    }

    method ByteAt(pos: nat) returns (c: Byte)
      requires Valid() && pos < buffer.TextLength()
      ensures [c] == buffer.Text()[pos..pos + 1]
    {
      var b := buffer.Get(pos);
      c := b as Byte;
    }

    /** A record at the address `id` that malloc handed out */
    method NewRecord(pos: nat, len: nat, buf: seq<Byte>, id: Address)
      requires Valid() && done == |records| && pos + len <= buffer.TextLength()
      modifies this`records, this`done, this`head, this`freed
      ensures Valid() && View() == old(View()).(records := old(records) + [Record(id, pos, buffer.Text()[pos..pos + len], buf)],
                                                done := old(done) + 1, freed := old(freed) - {id},
                                                head := if old(head) == NULL then id else old(head))
    {
      var erased := buffer.Copy(pos, len);
      records := records + [Record(id, pos, erased, buf)];
      freed := freed - {id};
      done := done + 1;
      if head == NULL {
        head := id;
      }
    }

    /** replace with undo information, as insert and erase call it.  The text changes as plain text does, and
        the history stays sound unless everything was undone, something could be redone, and malloc does not
        hand out the address of the old first record again. */
    method Replace(pos: nat, len: nat, buf: seq<Byte>, id: Address)
      requires Valid() && pos + len <= buffer.TextLength() && Available(View(), id)
      modifies this, buffer, buffer.data
      ensures Valid() && View() == Edit(old(View()), pos, len, buf, id)
      ensures old(Inv(View())) ==>
                (Inv(View()) <==> old(done) > 0 || old(head) == NULL || id == old(head))
      ensures dirty && buffer.Text() == old(buffer.Text())[..pos] + buf + old(buffer.Text())[pos + len..]
      ensures buffer.data == old(buffer.data) || fresh(buffer.data)
    {
      ghost var h := View();
      Change(pos, len, buf, id, h);
      SoundAfter(h, pos, len, buf, id);
    }

    method Change(pos: nat, len: nat, buf: seq<Byte>, id: Address, ghost h: History)
      requires Valid() && h == View() && pos + len <= buffer.TextLength()
      modifies this, buffer, buffer.data
      ensures Valid() && View() == Edit(h, pos, len, buf, id)
      ensures buffer.data == old(buffer.data) || fresh(buffer.data)
    {
      Reset();
      Remember(pos, len, buf, id);
      buffer.Replace(pos, len, buf);
      dirty := true;
    }

    /** undo */
    method UndoOnce()
      requires Valid() && Faithful(View())
      modifies this, buffer, buffer.data
      ensures Valid()
      ensures old(done) > 0 ==>
                CanReplace(old(View()).text, old(records)[old(done) - 1].pos, |old(records)[old(done) - 1].inserted|)
      ensures View() == Undo(old(View())) && Faithful(View()) && (old(Inv(View())) ==> Inv(View()))
      ensures buffer.data == old(buffer.data) || fresh(buffer.data)
    {
      UndoKeeps(View());
      if done > 0 {
        var r := records[done - 1];
        buffer.Replace(r.pos, |r.inserted|, r.erased);
        dirty := true;
        done := done - 1;
        if done == 0 {
          dirty := false;
        }
      }
    }

    /** redo, while the history is sound */
    method RedoOnce()
      requires Valid() && Inv(View())
      modifies this, buffer, buffer.data
      ensures Valid()
      ensures old(done) < |old(records)| ==>
                CanReplace(old(View()).text, old(records)[old(done)].pos, |old(records)[old(done)].erased|)
      ensures Some(View()) == Redo(old(View())) && Inv(View())
      ensures buffer.data == old(buffer.data) || fresh(buffer.data)
    {
      RedoKeeps(View());
      if done > 0 {
        if done == |records| {
          return;
        }
      } else if head == NULL {
        return;
      }
      var r := records[done];
      done := done + 1;
      buffer.Replace(r.pos, |r.erased|, r.inserted);
      dirty := true;
    }

    /** save_file; clear_undo frees the records from undohead on. */
    method Save() returns (file: seq<Byte>)
      requires Valid() && Inv(View())
      modifies this
      ensures Valid() && Pointed(old(View())) && Some(View()) == UndoHistory.Save(old(View()))
      ensures Inv(View()) && file == buffer.Text() && base == file
      ensures !dirty && records == [] && done == 0 && head == NULL
    {
      HeldIsNotDangling(View());
      file := buffer.Save();
      dirty := false;
      freed := if head == NULL then freed else freed + Ids(records);
      records, done, head, base := [], 0, NULL, file;
    }
  }

  lemma TailFreed(rs: seq<Record>, k: nat)
    requires k < |rs|
    ensures Ids(rs[k..]) == {rs[k].id} + Ids(rs[k + 1..])
  {
    assert rs[k..] == [rs[k]] + rs[k + 1..];
  }

  lemma SoundAfter(h: History, pos: nat, len: nat, buf: seq<Byte>, id: Address)
    requires h.done <= |h.records| && pos + len <= |h.text| && Available(h, id)
    ensures Inv(h) ==> (Inv(Edit(h, pos, len, buf, id)) <==> h.done > 0 || h.head == NULL || id == h.head)
  {
    if Inv(h) {
      EditSoundIff(h, pos, len, buf, id);
    }
  }
}
