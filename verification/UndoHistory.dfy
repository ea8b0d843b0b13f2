/**
  The editor's undo history (sys/edit.c): records of changes, some merged with the one before, and a
  boundary between those that can be undone and those that can be redone.
*/
module UndoHistory {
  import opened Options
  import opened GapBuffers

  /** The address of a record */
  type Address = nat

  const NULL: Address := 0

  /** struct undo, at its address: `erased` bytes at `pos` were replaced by `inserted` ones. */
  datatype Record = Record(id: Address, pos: nat, erased: seq<Byte>, inserted: seq<Byte>)

  /** `records` is the list that ends with undotail, and the first `done` of them end with the record that
      the undo field points to.  `head` is undohead, `freed` holds the addresses of records that were freed and
      not handed out again since, and `base` is the text at the last load or save. */
  datatype History = History(text: seq<Byte>, records: seq<Record>, done: nat, head: Address, freed: set<Address>,
                             dirty: bool, base: seq<Byte>)

  function Ids(rs: seq<Record>): set<Address> {
    set r | r in rs :: r.id
  }

  /** Does undohead point to a record that was freed? */
  predicate Dangling(h: History) {
    h.head != NULL && h.head in h.freed
  }

  /** An undohead that points to a record points to the first one. */
  predicate Pointed(h: History) {
    h.head != NULL && h.head !in h.freed ==> h.records != [] && h.head == h.records[0].id
  }

  // ---------- records and texts ----------

  /** Does the record describe a change of this text? */
  predicate Fits(r: Record, text: seq<Byte>) {
    r.pos + |r.erased| <= |text| && text[r.pos..r.pos + |r.erased|] == r.erased
  }

  function Apply(r: Record, text: seq<Byte>): seq<Byte>
    requires Fits(r, text)
  {
    Replaced(text, r.pos, |r.erased|, r.inserted)
  }

  /** The records describe one change after the other. */
  predicate Chain(base: seq<Byte>, rs: seq<Record>)
    decreases |rs|, 0
  {
    rs == [] || (Chain(base, rs[..|rs| - 1]) && Fits(rs[|rs| - 1], TextAfter(base, rs[..|rs| - 1])))
  }

  /** The text after all changes */
  function TextAfter(base: seq<Byte>, rs: seq<Record>): seq<Byte>
    requires Chain(base, rs)
    decreases |rs|, 1
  {
    if rs == [] then base else Apply(rs[|rs| - 1], TextAfter(base, rs[..|rs| - 1]))
  }

  lemma {:induction false} ChainPrefix(base: seq<Byte>, rs: seq<Record>, k: nat)
    requires Chain(base, rs) && k <= |rs|
    ensures Chain(base, rs[..k])
    decreases |rs|
  {
    if k == |rs| {
      assert rs[..k] == rs;
    } else {
      ChainPrefix(base, rs[..|rs| - 1], k);
      assert rs[..|rs| - 1][..k] == rs[..k];
    }
  }

  lemma ChainAppend(base: seq<Byte>, rs: seq<Record>, r: Record)
    requires Chain(base, rs) && Fits(r, TextAfter(base, rs))
    ensures Chain(base, rs + [r]) && TextAfter(base, rs + [r]) == Apply(r, TextAfter(base, rs))
  {
    assert (rs + [r])[..|rs|] == rs;
  }

  /** The change that undoes a record takes the text back. */
  lemma RevertApply(r: Record, text: seq<Byte>)
    requires Fits(r, text)
    ensures r.pos + |r.inserted| <= |Apply(r, text)|
    ensures Replaced(Apply(r, text), r.pos, |r.inserted|, r.erased) == text
  {
    var t := Apply(r, text);
    assert t[..r.pos] == text[..r.pos];
    assert t[r.pos + |r.inserted|..] == text[r.pos + |r.erased|..];
  }

  // ---------- merging ----------

  /** A character typed at the end of what the last record inserted */
  predicate TypesOn(r: Record, pos: nat, len: nat, buf: seq<Byte>) {
    len == 0 && |buf| == 1 && r.erased == [] && pos == r.pos + |r.inserted|
  }

  /** A character erased behind, or in front of, what the last record erased */
  predicate ErasesOn(r: Record, pos: nat, len: nat, buf: seq<Byte>) {
    len == 1 && buf == [] && r.inserted == [] && pos == r.pos
  }

  predicate ErasesBack(r: Record, pos: nat, len: nat, buf: seq<Byte>) {
    len == 1 && buf == [] && r.inserted == [] && pos == r.pos - 1
  }

  /** The record after a change that is merged into it.  `c` is the text's byte at `pos`. */
  function Merged(r: Record, pos: nat, len: nat, buf: seq<Byte>, c: seq<Byte>): Record
    requires TypesOn(r, pos, len, buf) || ErasesOn(r, pos, len, buf) || ErasesBack(r, pos, len, buf)
  {
    if TypesOn(r, pos, len, buf) then r.(inserted := r.inserted + buf)
    else if ErasesOn(r, pos, len, buf) then r.(erased := r.erased + c)
    else Record(r.id, pos, c + r.erased, [])
  }

  predicate Merges(rs: seq<Record>, pos: nat, len: nat, buf: seq<Byte>) {
    rs != [] &&
    var r := rs[|rs| - 1];
    TypesOn(r, pos, len, buf) || ErasesOn(r, pos, len, buf) || ErasesBack(r, pos, len, buf)
  }

  lemma TypedOn(r: Record, text: seq<Byte>, buf: seq<Byte>)
    requires Fits(r, text) && r.erased == []
    ensures var r' := r.(inserted := r.inserted + buf);
            var pos := r.pos + |r.inserted|;
            Fits(r', text) && pos <= |Apply(r, text)| && Apply(r', text) == Replaced(Apply(r, text), pos, 0, buf)
  {
    var t, pos := Apply(r, text), r.pos + |r.inserted|;
    assert t[..pos] == text[..r.pos] + r.inserted;
    assert t[pos..] == text[r.pos..];
  }

  lemma ErasedOn(r: Record, text: seq<Byte>, c: seq<Byte>)
    requires Fits(r, text) && r.inserted == []
    requires r.pos < |Apply(r, text)| && c == Apply(r, text)[r.pos..r.pos + 1]
    ensures var r' := r.(erased := r.erased + c);
            Fits(r', text) && Apply(r', text) == Replaced(Apply(r, text), r.pos, 1, [])
  {
    var t, e := Apply(r, text), r.pos + |r.erased|;
    assert t[..r.pos] == text[..r.pos];
    assert t[r.pos..] == text[e..];
    assert c == [t[r.pos]] && t[r.pos] == t[r.pos..][0];
    assert text[r.pos..e + 1] == text[r.pos..e] + [text[e]];
    assert t[r.pos + 1..] == t[r.pos..][1..];
  }

  lemma ErasedBack(r: Record, text: seq<Byte>, c: seq<Byte>)
    requires Fits(r, text) && r.inserted == [] && r.pos > 0
    requires c == Apply(r, text)[r.pos - 1..r.pos]
    ensures var r' := Record(r.id, r.pos - 1, c + r.erased, []);
            Fits(r', text) && Apply(r', text) == Replaced(Apply(r, text), r.pos - 1, 1, [])
  {
    var t, e := Apply(r, text), r.pos + |r.erased|;
    assert t[..r.pos] == text[..r.pos];
    assert t[..r.pos - 1] == text[..r.pos - 1];
    assert t[r.pos..] == text[e..];
    assert c == [text[r.pos - 1]];
    assert text[r.pos - 1..e] == [text[r.pos - 1]] + text[r.pos..e];
  }

  /** A merged record takes the text before it to the text after both changes. */
  lemma MergedKeeps(r: Record, text: seq<Byte>, pos: nat, len: nat, buf: seq<Byte>)
    requires Fits(r, text) && pos + len <= |Apply(r, text)|
    requires TypesOn(r, pos, len, buf) || ErasesOn(r, pos, len, buf) || ErasesBack(r, pos, len, buf)
    ensures var r' := Merged(r, pos, len, buf, Apply(r, text)[pos..pos + len]);
            Fits(r', text) && Apply(r', text) == Replaced(Apply(r, text), pos, len, buf)
  {
    if TypesOn(r, pos, len, buf) {
      TypedOn(r, text, buf);
    } else if ErasesOn(r, pos, len, buf) {
      ErasedOn(r, text, Apply(r, text)[pos..pos + len]);
    } else {
      ErasedBack(r, text, Apply(r, text)[pos..pos + len]);
    }
  }

  // ---------- operations ----------

  /** reset_undo frees the records behind the boundary, and leaves undohead as it is. */
  function ResetUndo(h: History): History
    requires h.done <= |h.records|
  {
    h.(records := h.records[..h.done], freed := h.freed + Ids(h.records[h.done..]))
  }

  /** The undo records after a change, before the text itself changes.  A new record is at the address `id`. */
  function Recorded(h: History, pos: nat, len: nat, buf: seq<Byte>, id: Address): History
    requires h.done == |h.records| && pos + len <= |h.text|
  {
    var c := h.text[pos..pos + len];
    if Merges(h.records, pos, len, buf) then
      var n := |h.records| - 1;
      h.(records := h.records[..n] + [Merged(h.records[n], pos, len, buf, c)])
    else
      h.(records := h.records + [Record(id, pos, c, buf)], done := h.done + 1, freed := h.freed - {id},
         head := if h.head == NULL then id else h.head)
  }

  /** An address that malloc may hand out after a reset: it is that of no record that is left. */
  predicate Available(h: History, id: Address)
    requires h.done <= |h.records|
  {
    id != NULL && id !in Ids(h.records[..h.done])
  }

  /** replace, with undo information */
  function Edit(h: History, pos: nat, len: nat, buf: seq<Byte>, id: Address): History
    requires h.done <= |h.records| && pos + len <= |h.text|
  {
    Recorded(ResetUndo(h), pos, len, buf, id).(text := Replaced(h.text, pos, len, buf), dirty := true)
  }

  predicate CanReplace(text: seq<Byte>, pos: nat, len: nat) {
    pos + len <= |text|
  }

  /** undo */
  function Undo(h: History): History
    requires h.done <= |h.records|
    requires h.done > 0 ==> CanReplace(h.text, h.records[h.done - 1].pos, |h.records[h.done - 1].inserted|)
  {
    if h.done == 0 then h
    else
      var r := h.records[h.done - 1];
      h.(text := Replaced(h.text, r.pos, |r.inserted|, r.erased), done := h.done - 1, dirty := h.done > 1)
  }

  /** redo; when nothing is left to undo it follows undohead, which is undefined if the record was freed. */
  function Redo(h: History): Option<History>
    requires h.done <= |h.records| && Pointed(h)
    requires h.done < |h.records| ==> CanReplace(h.text, h.records[h.done].pos, |h.records[h.done].erased|)
  {
    if h.done > 0 && h.done == |h.records| then Some(h)
    else if h.done == 0 && h.head == NULL then Some(h)
    else if h.done == 0 && h.head in h.freed then None
    else
      var r := h.records[h.done];
      Some(h.(text := Replaced(h.text, r.pos, |r.erased|, r.inserted), done := h.done + 1, dirty := true))
  }

  /** save_file; clear_undo frees the records from undohead on, which is undefined if that was freed. */
  function Save(h: History): Option<History>
    requires Pointed(h)
  {
    if Dangling(h) then None
    else Some(History(h.text, [], 0, NULL, if h.head == NULL then h.freed else h.freed + Ids(h.records), false, h.text))
  }

  function Loaded(text: seq<Byte>): History {
    History(text, [], 0, NULL, {}, false, text)
  }

  // ---------- the invariant ----------

  /** The records are a chain of changes from the text last loaded or saved, the first `done` of them lead
      to the present text, and a clean buffer holds the text last loaded or saved. */
  ghost predicate Faithful(h: History) {
    && h.done <= |h.records|
    && Chain(h.base, h.records)
    && Chain(h.base, h.records[..h.done])
    && h.text == TextAfter(h.base, h.records[..h.done])
    && (!h.dirty ==> h.text == h.base)
  }

  /** The records have addresses of their own that are not freed, and undohead points to the first. */
  ghost predicate Held(records: seq<Record>, head: Address, freed: set<Address>) {
    && (forall i, j | 0 <= i < j < |records| :: records[i].id != records[j].id)
    && (forall i | 0 <= i < |records| :: records[i].id != NULL && records[i].id !in freed)
    && head == if records == [] then NULL else records[0].id
  }

  ghost predicate Inv(h: History) {
    Faithful(h) && Held(h.records, h.head, h.freed)
  }

  lemma ResetKeeps(h: History)
    requires Faithful(h)
    ensures Faithful(ResetUndo(h)) && ResetUndo(h).text == h.text && ResetUndo(h).done == |ResetUndo(h).records|
  {
    var rs := h.records[..h.done];
    assert rs[..h.done] == rs;
  }

  lemma NewRecordFits(text: seq<Byte>, pos: nat, len: nat, buf: seq<Byte>, id: Address)
    requires pos + len <= |text|
    ensures var r := Record(id, pos, text[pos..pos + len], buf);
            Fits(r, text) && Apply(r, text) == Replaced(text, pos, len, buf)
  {
  }

  /** With or without merging, the records lead from the same base to the changed text. */
  lemma RecordedLeads(h: History, pos: nat, len: nat, buf: seq<Byte>, id: Address)
    requires h.done == |h.records| && Chain(h.base, h.records) && h.text == TextAfter(h.base, h.records)
    requires pos + len <= |h.text|
    ensures var rs := Recorded(h, pos, len, buf, id).records;
            && Chain(h.base, rs) && TextAfter(h.base, rs) == Replaced(h.text, pos, len, buf)
            && rs != [] && Recorded(h, pos, len, buf, id).done == |rs|
  {
    var n := |h.records|;
    if Merges(h.records, pos, len, buf) {
      var r, before := h.records[n - 1], TextAfter(h.base, h.records[..n - 1]);
      MergedKeeps(r, before, pos, len, buf);
      ChainAppend(h.base, h.records[..n - 1], Merged(r, pos, len, buf, h.text[pos..pos + len]));
    } else {
      NewRecordFits(h.text, pos, len, buf, id);
      ChainAppend(h.base, h.records, Record(id, pos, h.text[pos..pos + len], buf));
    }
  }

  lemma EditKeeps(h: History, pos: nat, len: nat, buf: seq<Byte>, id: Address)
    requires Faithful(h) && pos + len <= |h.text|
    ensures var h' := Edit(h, pos, len, buf, id);
            Faithful(h') && h'.text == Replaced(h.text, pos, len, buf) && h'.base == h.base
  {
    ResetKeeps(h);
    var h0 := ResetUndo(h);
    assert h0.records[..h0.done] == h0.records;
    RecordedLeads(h0, pos, len, buf, id);
    var h' := Edit(h, pos, len, buf, id);
    assert h'.records[..h'.done] == h'.records;
  }

  /** The records that stay are not freed by a reset; if any do, undohead still points to the first. */
  lemma ResetHeld(h: History)
    requires h.done <= |h.records| && Held(h.records, h.head, h.freed)
    ensures var h0 := ResetUndo(h);
            if h.done > 0 || h.records == [] then Held(h0.records, h0.head, h0.freed)
            else h0.records == [] && Dangling(h0) && h0.head == h.head
  {
    var h0 := ResetUndo(h);
    if h.done > 0 {
      forall i | 0 <= i < h.done
        ensures h0.records[i].id !in h0.freed
      {
      }
    } else if h.records != [] {
      assert h.records[0] in h.records[h.done..];
    }
  }

  /** A merge leaves the addresses alone, and a new record at an available address is not a freed one. */
  lemma RecordedHeld(h: History, pos: nat, len: nat, buf: seq<Byte>, id: Address)
    requires h.done == |h.records| && pos + len <= |h.text| && Held(h.records, h.head, h.freed)
    requires id != NULL && id !in Ids(h.records)
    ensures var h' := Recorded(h, pos, len, buf, id); Held(h'.records, h'.head, h'.freed)
  {
    var h' := Recorded(h, pos, len, buf, id);
    forall i | 0 <= i < |h.records|
      ensures h'.records[i].id == h.records[i].id && h.records[i].id != id
    {
      assert h.records[i] in h.records;
    }
  }

  /** After everything was undone the new record is the only one, and undohead still holds the old address. */
  lemma RecordedAlone(h: History, pos: nat, len: nat, buf: seq<Byte>, id: Address)
    requires h.records == [] && h.done == 0 && pos + len <= |h.text| && Dangling(h) && id != NULL
    ensures var h' := Recorded(h, pos, len, buf, id);
            && (Held(h'.records, h'.head, h'.freed) <==> id == h.head)
            && (Dangling(h') <==> id != h.head)
  {
    var h' := Recorded(h, pos, len, buf, id);
    assert h'.records[0].id == id;
  }

  /** The history stays sound under a change exactly when it is not true that everything was undone and
      something could be redone, or when malloc happens to hand out the address of the old first record
      again.  Otherwise undohead points to a freed record. */
  lemma EditSoundIff(h: History, pos: nat, len: nat, buf: seq<Byte>, id: Address)
    requires Inv(h) && pos + len <= |h.text| && Available(h, id)
    ensures Inv(Edit(h, pos, len, buf, id)) <==> h.done > 0 || h.head == NULL || id == h.head
    ensures Dangling(Edit(h, pos, len, buf, id)) <==> h.done == 0 && h.head != NULL && id != h.head
  {
    var h0 := ResetUndo(h);
    EditKeeps(h, pos, len, buf, id);
    ResetHeld(h);
    if h.done > 0 || h.records == [] {
      RecordedHeld(h0, pos, len, buf, id);
      HeldIsNotDangling(Edit(h, pos, len, buf, id));
    } else {
      RecordedAlone(h0, pos, len, buf, id);
    }
  }

  lemma HeldIsNotDangling(h: History)
    requires Held(h.records, h.head, h.freed)
    ensures !Dangling(h) && Pointed(h)
  {
  }

  // ---------- how many records ----------

  /** Three changes are merged into the last record: a character typed behind what it inserted, if it erased
      nothing, and a character erased behind or in front of what it erased, if it inserted nothing.  Any other
      change makes a record of its own.  Records behind the boundary are gone. */
  lemma EditRecords(h: History, pos: nat, len: nat, buf: seq<Byte>, id: Address)
    requires h.done <= |h.records| && pos + len <= |h.text|
    ensures var h', n := Edit(h, pos, len, buf, id), h.done;
            var r := if n > 0 then h.records[n - 1] else Record(NULL, 0, [], []);
            var typed := n > 0 && len == 0 && |buf| == 1 && r.erased == [] && pos == r.pos + |r.inserted|;
            var erased := n > 0 && len == 1 && buf == [] && r.inserted == [] && (pos == r.pos || pos == r.pos - 1);
            && h'.dirty && h'.done == |h'.records|
            && if typed || erased
               then |h'.records| == n && h'.records[..n - 1] == h.records[..n - 1] && h'.records[n - 1].id == r.id
               else h'.records == h.records[..n] + [Record(id, pos, h.text[pos..pos + len], buf)]
  {
    var h0 := ResetUndo(h);
    assert h.done > 0 ==> h0.records[h.done - 1] == h.records[h.done - 1];
  }

  /** The text with `chars` put in at `pos` */
  function With(text: seq<Byte>, pos: nat, chars: seq<Byte>): seq<Byte>
    requires pos <= |text|
  {
    text[..pos] + chars + text[pos..]
  }

  /** `hs` are the histories while `chars` are typed one behind the other from `pos` on. */
  ghost predicate Typing(hs: seq<History>, pos: nat, chars: seq<Byte>, id: Address) {
    && |hs| == |chars| + 1
    && forall k | 0 <= k < |chars| :: Keyed(hs[k], pos + k, chars[k], id, hs[k + 1])
  }

  /** One character is typed at `at`. */
  ghost predicate Keyed(h: History, at: nat, c: Byte, id: Address, h': History) {
    h.done <= |h.records| && at <= |h.text| && h' == Edit(h, at, 0, [c], id)
  }

  lemma {:induction false} TypedText(hs: seq<History>, pos: nat, chars: seq<Byte>, id: Address, k: nat)
    requires Typing(hs, pos, chars, id) && k <= |chars| && pos <= |hs[0].text|
    ensures hs[k].text == With(hs[0].text, pos, chars[..k])
    decreases k
  {
    if k == 0 {
      assert With(hs[0].text, pos, []) == hs[0].text;
    } else {
      TypedText(hs, pos, chars, id, k - 1);
      KeyedText(hs[k - 1], pos + k - 1, chars[k - 1], id, hs[k]);
      WithNext(hs[0].text, pos, chars, k - 1);
    }
  }

  lemma KeyedText(h: History, at: nat, c: Byte, id: Address, h': History)
    requires Keyed(h, at, c, id, h')
    ensures at <= |h.text| && h'.text == Replaced(h.text, at, 0, [c])
  {
  }

  lemma WithNext(text: seq<Byte>, pos: nat, chars: seq<Byte>, n: nat)
    requires pos <= |text| && n < |chars|
    ensures pos + n <= |With(text, pos, chars[..n])|
    ensures Replaced(With(text, pos, chars[..n]), pos + n, 0, [chars[n]]) == With(text, pos, chars[..n + 1])
  {
    var t := With(text, pos, chars[..n]);
    assert t[..pos + n] == text[..pos] + chars[..n] && t[pos + n..] == text[pos..];
    assert chars[..n + 1] == chars[..n] + [chars[n]];
  }

  /** If the first of them does not continue what was typed before, they all go into one record. */
  lemma {:induction false} TypedIsOneRecord(hs: seq<History>, pos: nat, chars: seq<Byte>, id: Address, k: nat)
    requires Typing(hs, pos, chars, id) && 0 < k <= |chars| && hs[0].done <= |hs[0].records|
    requires hs[0].done > 0 ==>
               var r := hs[0].records[hs[0].done - 1]; r.erased != [] || pos != r.pos + |r.inserted|
    ensures hs[k].records == hs[0].records[..hs[0].done] + [Record(id, pos, [], chars[..k])]
    ensures hs[k].done == hs[0].done + 1
    decreases k
  {
    if k == 1 {
      TypedFirst(hs[0], pos, chars[0], id, hs[1]);
      assert chars[..1] == [chars[0]];
    } else {
      TypedIsOneRecord(hs, pos, chars, id, k - 1);
      GoesOn(hs[k - 1], hs[0].records[..hs[0].done], pos, chars[..k - 1], chars[k - 1], id, hs[k]);
      assert chars[..k - 1] + [chars[k - 1]] == chars[..k];
    }
  }

  lemma TypedFirst(h: History, pos: nat, c: Byte, id: Address, h': History)
    requires Keyed(h, pos, c, id, h')
    requires h.done > 0 ==>
               var r := h.records[h.done - 1]; r.erased != [] || pos != r.pos + |r.inserted|
    ensures h'.records == h.records[..h.done] + [Record(id, pos, [], [c])] && h'.done == h.done + 1
  {
    assert h.text[pos..pos] == [];
    EditRecords(h, pos, 0, [c], id);
  }

  lemma GoesOn(h: History, before: seq<Record>, pos: nat, some: seq<Byte>, c: Byte, id: Address, h': History)
    requires Keyed(h, pos + |some|, c, id, h') && some != []
    requires h.records == before + [Record(id, pos, [], some)] && h.done == |before| + 1
    ensures h'.records == before + [Record(id, pos, [], some + [c])] && h'.done == |before| + 1
  {
    assert h.records[..h.done] == h.records;
    assert h.records[..|before|] == before;
  }

  /** One undo takes back all characters that were typed one behind the other. */
  lemma UndoTakesBackTyping(hs: seq<History>, pos: nat, chars: seq<Byte>, id: Address)
    requires Typing(hs, pos, chars, id) && chars != []
    requires hs[0].done <= |hs[0].records| && pos <= |hs[0].text|
    requires hs[0].done > 0 ==>
               var r := hs[0].records[hs[0].done - 1]; r.erased != [] || pos != r.pos + |r.inserted|
    ensures var h' := hs[|chars|];
            && h'.text == hs[0].text[..pos] + chars + hs[0].text[pos..] && 0 < h'.done <= |h'.records|
            && CanReplace(h'.text, h'.records[h'.done - 1].pos, |h'.records[h'.done - 1].inserted|)
            && Undo(h').text == hs[0].text && Undo(h').done == hs[0].done
  {
    TypedIsOneRecord(hs, pos, chars, id, |chars|);
    TypedText(hs, pos, chars, id, |chars|);
    assert chars[..|chars|] == chars;
    UndoTyped(hs[0], hs[|chars|], pos, chars, id);
  }

  lemma UndoTyped(h: History, h': History, pos: nat, chars: seq<Byte>, id: Address)
    requires h.done <= |h.records| && pos <= |h.text| && h'.text == With(h.text, pos, chars)
    requires h'.records == h.records[..h.done] + [Record(id, pos, [], chars)] && h'.done == h.done + 1
    ensures CanReplace(h'.text, h'.records[h'.done - 1].pos, |h'.records[h'.done - 1].inserted|)
    ensures Undo(h').text == h.text && Undo(h').done == h.done
  {
    assert h'.records[h.done] == Record(id, pos, [], chars);
    assert h'.text[..pos] == h.text[..pos] && h'.text[pos + |chars|..] == h.text[pos..];
    assert h.text[..pos] + [] + h.text[pos..] == h.text;
  }

  lemma UndoFits(h: History)
    requires Faithful(h) && h.done > 0
    ensures var r, rs := h.records[h.done - 1], h.records[..h.done - 1];
            && Chain(h.base, rs) && Fits(r, TextAfter(h.base, rs)) && h.text == Apply(r, TextAfter(h.base, rs))
            && CanReplace(h.text, r.pos, |r.inserted|)
            && Replaced(h.text, r.pos, |r.inserted|, r.erased) == TextAfter(h.base, rs)
  {
    var rs := h.records[..h.done];
    assert rs[..h.done - 1] == h.records[..h.done - 1];
    RevertApply(h.records[h.done - 1], TextAfter(h.base, h.records[..h.done - 1]));
  }

  lemma UndoKeeps(h: History)
    requires Faithful(h)
    ensures h.done > 0 ==> CanReplace(h.text, h.records[h.done - 1].pos, |h.records[h.done - 1].inserted|)
    ensures Faithful(Undo(h)) && (Inv(h) ==> Inv(Undo(h)))
  {
    if h.done > 0 {
      UndoFits(h);
      assert h.done == 1 ==> h.records[..0] == [];
    }
  }

  lemma RedoFits(h: History)
    requires Faithful(h) && h.done < |h.records|
    ensures var r, rs := h.records[h.done], h.records[..h.done + 1];
            && Chain(h.base, rs) && Fits(r, h.text) && TextAfter(h.base, rs) == Apply(r, h.text)
  {
    ChainPrefix(h.base, h.records, h.done + 1);
    assert h.records[..h.done + 1][..h.done] == h.records[..h.done];
  }

  lemma RedoKeeps(h: History)
    requires Inv(h)
    ensures h.done < |h.records| ==> CanReplace(h.text, h.records[h.done].pos, |h.records[h.done].erased|)
    ensures Redo(h).Some? && Inv(Redo(h).value)
  {
    HeldIsNotDangling(h);
    if h.done < |h.records| {
      RedoFits(h);
    }
  }

  /** The text depends only on the boundary: it is the text after the first `done` records. */
  lemma RedoAfterUndo(h: History)
    requires Inv(h) && h.done > 0
    ensures Inv(Undo(h)) && Redo(Undo(h)) == Some(h.(dirty := true))
  {
    UndoKeeps(h);
    UndoFits(h);
    RedoKeeps(Undo(h));
    RedoFits(Undo(h));
  }

  function UndoMany(h: History, n: nat): (h': History)
    requires Inv(h) && n <= h.done
    ensures Inv(h') && h'.done == h.done - n && h'.records == h.records && h'.head == h.head && h'.base == h.base
  {
    if n == 0 then h
    else
      var h1 := UndoMany(h, n - 1);
      UndoKeeps(h1);
      Undo(h1)
  }

  function RedoMany(h: History, n: nat): (h': History)
    requires Inv(h) && h.done + n <= |h.records|
    ensures Inv(h') && h'.done == h.done + n && h'.records == h.records && h'.head == h.head && h'.base == h.base
    decreases n
  {
    if n == 0 then h
    else
      RedoKeeps(h);
      var h1 := Redo(h).value;
      RedoMany(h1, n - 1)
  }

  /** n undos followed by n redos restore the text and the records, however the records came about. */
  lemma UndoRedoRestores(h: History, n: nat)
    requires Inv(h) && n <= h.done
    ensures RedoMany(UndoMany(h, n), n).text == h.text
    ensures RedoMany(UndoMany(h, n), n).records == h.records && RedoMany(UndoMany(h, n), n).done == h.done
  {
    var h' := RedoMany(UndoMany(h, n), n);
    assert h'.text == TextAfter(h'.base, h'.records[..h'.done]);
  }

  /** k undos lead back to the text after the first done - k records; all of them, to the text last loaded
      or saved, in a clean buffer. */
  lemma UndoManyText(h: History, n: nat)
    requires Inv(h) && n <= h.done
    ensures Chain(h.base, h.records[..h.done - n])
    ensures UndoMany(h, n).text == TextAfter(h.base, h.records[..h.done - n])
    ensures n == h.done > 0 ==> UndoMany(h, n).text == h.base && !UndoMany(h, n).dirty
  {
    ChainPrefix(h.base, h.records, h.done - n);
    if n == h.done {
      assert h.records[..0] == [];
    }
  }

  /** Saving leaves the text and nothing to undo or redo, in a clean buffer. */
  lemma SaveResult(h: History)
    requires Inv(h)
    ensures Pointed(h) && Save(h).Some?
    ensures var h' := Save(h).value;
            Inv(h') && h'.text == h.text && h'.base == h.text && !h'.dirty && h'.records == [] && h'.done == 0
  {
    HeldIsNotDangling(h);
  }

  // ---------- whole histories ----------

  datatype Step = Change(pos: nat, len: nat, buf: seq<Byte>, id: Address) | UndoStep | RedoStep | SaveStep

  /** Changes are within the text and get an available address, and none comes after everything was undone while
      something could be redone, unless the address is that of the old first record. */
  predicate Enabled(h: History, step: Step)
    requires h.done <= |h.records|
  {
    match step
    case Change(pos, len, _, id) =>
      pos + len <= |h.text| && Available(h, id) && (h.done > 0 || h.head == NULL || id == h.head)
    case _ => true
  }

  function Next(h: History, step: Step): (h': History)
    requires Inv(h) && Enabled(h, step)
    ensures Inv(h')
  {
    match step
    case Change(pos, len, buf, id) =>
      EditSoundIff(h, pos, len, buf, id);
      Edit(h, pos, len, buf, id)
    case UndoStep =>
      UndoKeeps(h);
      Undo(h)
    case RedoStep =>
      RedoKeeps(h);
      Redo(h).value
    case SaveStep =>
      HeldIsNotDangling(h);
      Save(h).value
  }

  ghost predicate Admissible(h: History, steps: seq<Step>)
    requires Inv(h)
    decreases |steps|
  {
    steps == [] || (Enabled(h, steps[0]) && Admissible(Next(h, steps[0]), steps[1..]))
  }

  ghost function Run(h: History, steps: seq<Step>): (h': History)
    requires Inv(h) && Admissible(h, steps)
    ensures Inv(h')
    decreases |steps|
  {
    if steps == [] then h else Run(Next(h, steps[0]), steps[1..])
  }

  /** The text that was last loaded or saved in a run that starts with `text` */
  ghost function LastSaved(h: History, steps: seq<Step>, text: seq<Byte>): seq<Byte>
    requires Inv(h) && Admissible(h, steps)
    decreases |steps|
  {
    if steps == [] then text
    else LastSaved(Next(h, steps[0]), steps[1..], if steps[0] == SaveStep then h.text else text)
  }

  lemma {:induction false} BaseIsLastSaved(h: History, steps: seq<Step>)
    requires Inv(h) && Admissible(h, steps)
    ensures Run(h, steps).base == LastSaved(h, steps, h.base)
    decreases |steps|
  {
    if steps != [] {
      var h' := Next(h, steps[0]);
      if steps[0].RedoStep? { RedoKeeps(h); }
      assert h'.base == if steps[0] == SaveStep then h.text else h.base;
      BaseIsLastSaved(h', steps[1..]);
    }
  }

  /** In every state that an editor reaches, a clean buffer holds the text last loaded or saved, and any
      number of undos can be redone. */
  lemma CleanIsSaved(text: seq<Byte>, steps: seq<Step>, n: nat)
    requires Admissible(Loaded(text), steps)
    ensures var h := Run(Loaded(text), steps);
            && (!h.dirty ==> h.text == LastSaved(Loaded(text), steps, text))
            && (n <= h.done ==> RedoMany(UndoMany(h, n), n).text == h.text)
  {
    var h := Run(Loaded(text), steps);
    BaseIsLastSaved(Loaded(text), steps);
    if n <= h.done {
      UndoRedoRestores(h, n);
    }
  }

  /** After a change that follows a complete undo, save follows a pointer to a freed record, and so does redo
      after the next complete undo. */
  lemma StaleHeadAfterFullUndo(h1: History, h2: History, h3: History)
    requires h1 == Edit(Loaded([]), 0, 0, [65], 100)
    requires h2 == h1.(text := [], done := 0, dirty := false)
    requires h3 == Edit(h2, 0, 0, [66], 200)
    ensures CanReplace(h1.text, 0, 1) && Undo(h1) == h2
    ensures h3.head == 100 && h3.freed == {100} && h3.records == [Record(200, 0, [], [66])] && h3.text == [66]
    ensures Save(h3) == None && CanReplace(h3.text, 0, 1) && Redo(Undo(h3)) == None
  {
    assert h1.records == [Record(100, 0, [], [65])] && h1.text == [65] && h1.head == 100 && h1.freed == {};
    assert h2.records[0..] == h1.records && Ids(h2.records[0..]) == {100};
    assert h3.freed == {100};
  }
}
