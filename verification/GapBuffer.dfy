/**
  The text editor's buffer (sys/edit.c): an array with a gap at the place of the last change, which must
  read and change like the plain text.
*/
module GapBuffers {

  newtype Byte = x: int | 0 <= x < 256

  const MIN_EXTEND: nat := 512

  /** A text with `len` bytes from `pos` on replaced by `buf` */
  function Replaced(text: seq<Byte>, pos: nat, len: nat, buf: seq<Byte>): seq<Byte>
    requires pos + len <= |text|
  {
    text[..pos] + buf + text[pos + len..]
  }

  /** What memmove leaves of an array */
  function Moved(s: seq<Byte>, dst: nat, src: nat, n: nat): seq<Byte>
    requires dst + n <= |s| && src + n <= |s|
  {
    s[..dst] + s[src..src + n] + s[dst + n..]
  }

  /** The text in an array with a gap */
  function TextIn(s: seq<Byte>, gap: nat, rest: nat): seq<Byte>
    requires gap <= rest <= |s|
  {
    s[..gap] + s[rest..]
  }

  /** The bytes between `pos` and the gap move to the far side of it. */
  lemma MoveDown(s: seq<Byte>, gap: nat, rest: nat, pos: nat)
    requires pos <= gap <= rest <= |s|
    ensures TextIn(Moved(s, pos + (rest - gap), pos, gap - pos), pos, pos + (rest - gap)) == TextIn(s, gap, rest)
  {
    var s' := Moved(s, pos + (rest - gap), pos, gap - pos);
    assert s'[pos + (rest - gap)..] == s[pos..gap] + s[rest..];
    assert s'[..pos] == s[..pos];
    assert s[..gap] == s[..pos] + s[pos..gap];
  }

  /** The bytes between the gap and `pos`, which lie behind it, move to the near side. */
  lemma MoveUp(s: seq<Byte>, gap: nat, rest: nat, pos: nat)
    requires gap <= pos <= gap + (|s| - rest) && rest <= |s| && gap <= rest
    ensures TextIn(Moved(s, gap, rest, pos - gap), pos, pos + (rest - gap)) == TextIn(s, gap, rest)
  {
    var s' := Moved(s, gap, rest, pos - gap);
    var p := pos + (rest - gap);
    assert s'[..pos] == s[..gap] + s[rest..p];
    assert s'[p..] == s[p..];
    assert s[rest..] == s[rest..p] + s[p..];
  }

  /** A change in front of the gap, which is wide enough for what the change adds */
  lemma ReplaceAtGap(s: seq<Byte>, gap: nat, rest: nat, pos: nat, buf: seq<Byte>)
    requires pos <= gap && pos + |buf| <= rest <= |s| && gap <= rest
    ensures TextIn(s[..pos] + buf + s[pos + |buf|..], pos + |buf|, rest) ==
            Replaced(TextIn(s, gap, rest), pos, gap - pos, buf)
  {
    var s' := s[..pos] + buf + s[pos + |buf|..];
    assert s'[..pos + |buf|] == s[..pos] + buf;
    assert s'[rest..] == s[rest..];
    assert TextIn(s, gap, rest)[..pos] == s[..pos];
    assert TextIn(s, gap, rest)[gap..] == s[rest..];
  }

  /** A deletion that touches the gap only widens it. */
  lemma DeleteAcrossGap(s: seq<Byte>, gap: nat, rest: nat, pos: nat, len: nat)
    requires pos <= gap <= pos + len && gap <= rest && rest + (len - (gap - pos)) <= |s|
    ensures pos + len <= |TextIn(s, gap, rest)|
    ensures TextIn(s, pos, rest + (len - (gap - pos))) == Replaced(TextIn(s, gap, rest), pos, len, [])
  {
    var t := TextIn(s, gap, rest);
    assert t[..pos] == s[..pos];
    assert t[pos + len..] == s[rest + (len - (gap - pos))..];
    assert t[..pos] + [] + t[pos + len..] == t[..pos] + t[pos + len..];
  }

  /** Where the byte at `pos` of the text lies in the array. */
  lemma TextAt(s: seq<Byte>, gap: nat, rest: nat, pos: nat)
    requires gap <= rest <= |s| && pos < gap + (|s| - rest)
    ensures TextIn(s, gap, rest)[pos] == s[if pos < gap then pos else pos + (rest - gap)]
  {
  }

  /** The text before and behind a position, as ranges of the array */
  lemma SplitText(s: seq<Byte>, gap: nat, rest: nat, pos: nat)
    requires gap <= rest <= |s| && pos <= gap + (|s| - rest)
    ensures TextIn(s, gap, rest)[..pos] == if pos < gap then s[..pos] else s[..gap] + s[rest..pos + (rest - gap)]
    ensures TextIn(s, gap, rest)[pos..] == if pos < gap then s[pos..gap] + s[rest..] else s[pos + (rest - gap)..]
  {
  }

  lemma Halves(s: seq<Byte>, gap: nat, rest: nat, t: seq<Byte>)
    requires gap <= rest <= |s| && gap <= |t|
    requires s[..gap] == t[..gap] && s[rest..] == t[gap..]
    ensures TextIn(s, gap, rest) == t
  {
  }

  lemma OneMore(t: seq<Byte>, pos: nat, n: nat)
    requires pos + n < |t|
    ensures t[pos..pos + n] + [t[pos + n]] == t[pos..pos + n + 1]
  {
  }

  class GapBuffer {
    var data: array<Byte>   // start is index 0 and end is data.Length
    var gap: nat
    var rest: nat

    ghost predicate Valid()
      reads this
    {
      gap <= rest <= data.Length
    }

    ghost function Text(): seq<Byte>
      requires Valid()
      reads this, data
    {
      TextIn(data[..], gap, rest)
    }

    /** load_file: the text is followed by a gap of MINEXTEND bytes.  With the empty text, new_file. */
    constructor (text: seq<Byte>)
      ensures Valid() && Text() == text && fresh(data)
    {
      var a := new Byte[|text| + MIN_EXTEND];
      data, gap, rest := a, |text|, |text| + MIN_EXTEND;
      new;
      forall i | 0 <= i < |text| {
        a[i] := text[i];
      }
      assert data[..gap] == text;
    }

    function TextLength(): nat
      requires Valid()
      reads this
    {
      gap + (data.Length - rest)
    }

    /** text_ptr */
    function TextPtr(pos: nat): nat
      requires Valid()
      reads this
    {
      if pos >= gap then pos + (rest - gap) else pos
    }

    /** memmove within the array */
    method Memmove(dst: nat, src: nat, n: nat)
      requires dst + n <= data.Length && src + n <= data.Length
      modifies data
      ensures data[..] == Moved(old(data[..]), dst, src, n)
    {
      forall i | 0 <= i < n {
        data[dst + i] := data[src + i];
      }
    }

    /** memcpy of `s` to the place `dst` of array `a` */
    static method Memcpy(a: array<Byte>, dst: nat, s: seq<Byte>)
      requires dst + |s| <= a.Length
      modifies a
      ensures a[..] == old(a[..dst]) + s + old(a[dst + |s|..])
    {
      forall i | 0 <= i < |s| {
        a[dst + i] := s[i];
      }
    }

    method ShiftDown(pos: nat)
      requires Valid() && pos < gap
      modifies this`gap, this`rest, data
      ensures Valid() && Text() == old(Text()) && gap == pos && rest - gap == old(rest) - old(gap)
    {
      var gapsize := rest - gap;
      MoveDown(data[..], gap, rest, pos);
      Memmove(pos + gapsize, pos, gap - pos);
      gap, rest := pos, pos + gapsize;
    }

    method ShiftUp(pos: nat)
      requires Valid() && gap <= pos <= TextLength()
      modifies this`gap, this`rest, data
      ensures Valid() && Text() == old(Text()) && gap == pos && rest - gap == old(rest) - old(gap)
    {
      var gapsize := rest - gap;
      MoveUp(data[..], gap, rest, pos);
      Memmove(gap, rest, pos - gap);
      gap, rest := pos, pos + gapsize;
    }

    /** The part of move_gap that moves bytes within the array */
    method Shift(pos: nat)
      requires Valid() && pos <= TextLength()
      modifies this`gap, this`rest, data
      ensures Valid() && Text() == old(Text()) && gap == pos && rest - gap == old(rest) - old(gap)
    {
      var p := TextPtr(pos);
      if p != rest {
        if p < gap {
          ShiftDown(pos);
        } else {
          ShiftUp(pos);
        }
      }
    }

    /** What the larger array gets from before `pos` */
    method CopyBefore(start: array<Byte>, pos: nat)
      requires Valid() && pos <= TextLength() && pos <= start.Length && start != data
      modifies start
      ensures start[..pos] == Text()[..pos]
    {
      SplitText(data[..], gap, rest, pos);
      if pos < gap {
        Memcpy(start, 0, data[..pos]);
      } else {
        var p := TextPtr(pos);
        Memcpy(start, 0, data[..gap]);
        Memcpy(start, gap, data[rest..p]);
      }
    }

    /** What it gets from behind `pos` */
    method CopyAfter(start: array<Byte>, pos: nat, newRest: nat)
      requires Valid() && pos <= TextLength() && start != data
      requires pos <= newRest && start.Length == newRest + (TextLength() - pos)
      modifies start
      ensures start[..pos] == old(start[..pos])
      ensures start[newRest..] == Text()[pos..]
    {
      var p := TextPtr(pos);
      SplitText(data[..], gap, rest, pos);
      if p < gap {
        Memcpy(start, newRest, data[p..gap]);
        Memcpy(start, start.Length - (data.Length - rest), data[rest..]);
        assert start[newRest..] == data[p..gap] + data[rest..];
      } else {
        Memcpy(start, newRest, data[p..]);
      }
    }

    /** The part of move_gap that copies the text to a larger array */
    method Extend(pos: nat, minsize: nat)
      requires Valid() && pos <= TextLength() && minsize > rest - gap
      modifies this
      ensures Valid() && Text() == old(Text())
      ensures gap == pos && rest - gap >= minsize && fresh(data)
      ensures rest - gap == if old(rest - gap) + MIN_EXTEND > minsize then old(rest - gap) + MIN_EXTEND else minsize
    {
      var gapsize := rest - gap;
      var size := if gapsize + MIN_EXTEND > minsize then gapsize + MIN_EXTEND else minsize;
      var start := new Byte[data.Length - gapsize + size];
      CopyBefore(start, pos);
      CopyAfter(start, pos, pos + size);
      Halves(start[..], pos, pos + size, Text());
      data, gap, rest := start, pos, pos + size;
    }

    /** move_gap: the text stays, the gap starts at `pos` and is at least `minsize` wide. */
    method MoveGap(pos: nat, minsize: int)
      requires Valid() && pos <= TextLength()
      modifies this, data
      ensures Valid() && Text() == old(Text())
      ensures gap == pos && rest - gap >= minsize
      ensures rest - gap == if minsize <= old(rest - gap) then old(rest - gap)
                            else if old(rest - gap) + MIN_EXTEND > minsize then old(rest - gap) + MIN_EXTEND else minsize
      ensures data == old(data) || fresh(data)
    {
      if minsize <= rest - gap {
        Shift(pos);
      } else {
        Extend(pos, minsize);
      }
    }

    /** get: the byte at `pos`, or -1 behind the end */
    method Get(pos: nat) returns (c: int)
      requires Valid()
      ensures c == if pos < |Text()| then Text()[pos] as int else -1
    {
      var p := TextPtr(pos);
      if p >= data.Length {
        c := -1;
      } else {
        TextAt(data[..], gap, rest, pos);
        c := data[p] as int;
      }
    }

    /** compare: is `buf` what the text holds from `pos` on? */
    method Compare(buf: seq<Byte>, pos: nat) returns (same: bool)
      requires Valid() && pos <= TextLength()
      ensures same <==> pos + |buf| <= |Text()| && Text()[pos..pos + |buf|] == buf
    {
      ghost var t := Text();
      var p := TextPtr(pos);
      var i := 0;
      while i < |buf|
        invariant i <= |buf| && pos + i <= |t| && p == TextPtr(pos + i)
        invariant t[pos..pos + i] == buf[..i]
      {
        if p == data.Length {
          return false;
        }
        Look(pos + i, p);
        if buf[i] != data[p] {
          assert pos + |buf| <= |t| ==> t[pos..pos + |buf|][i] != buf[i];
          return false;
        }
        OneMore(t, pos, i);
        p := Advance(p, pos + i);
        i := i + 1;
      }
      return true;
    }

    /** copy: up to `len` bytes of the text from `pos` on */
    method Copy(pos: nat, len: nat) returns (buf: seq<Byte>)
      requires Valid() && pos <= TextLength()
      ensures buf == Text()[pos..if pos + len <= |Text()| then pos + len else |Text()|]
    {
      ghost var t := Text();
      var p := TextPtr(pos);
      buf := [];
      while |buf| < len
        invariant |buf| <= len && pos + |buf| <= |t| && p == TextPtr(pos + |buf|)
        invariant buf == t[pos..pos + |buf|]
        decreases len - |buf|
      {
        if p == data.Length {
          break;
        }
        Look(pos + |buf|, p);
        OneMore(t, pos, |buf|);
        p, buf := Advance(p, pos + |buf|), buf + [data[p]];
      }
    }

    /** The next place in the array, skipping the gap */
    function Advance(p: nat, ghost pos: nat): (q: nat)
      requires Valid() && pos < TextLength() && p == TextPtr(pos)
      reads this
      ensures q == TextPtr(pos + 1)
    {
      if p + 1 == gap then rest else p + 1
    }

    lemma Look(pos: nat, p: nat)
      requires Valid() && pos <= TextLength() && p == TextPtr(pos)
      ensures |Text()| == TextLength() && p <= data.Length && (p < data.Length ==> pos < |Text()| && Text()[pos] == data[p])
    {
      if p < data.Length {
        TextAt(data[..], gap, rest, pos);
      }
    }

    /** replace, but for the undo records: through the deletion at the edge of the gap or through a move of
        the gap, the text changes as if it were plain. */
    method Replace(pos: nat, len: nat, buf: seq<Byte>)
      requires Valid() && pos + len <= TextLength()
      modifies this, data
      ensures Valid() && Text() == old(Text())[..pos] + buf + old(Text())[pos + len..]
      ensures data == old(data) || fresh(data)
    {
      if |buf| == 0 && pos <= gap && pos + len >= gap {
        DeleteAcrossGap(data[..], gap, rest, pos, len);
        rest := rest + (len - (gap - pos));
        gap := pos;
      } else {
        MoveGap(pos + len, |buf| - len);
        ReplaceAtGap(data[..], gap, rest, pos, buf);
        Memcpy(data, pos, buf);
        gap := pos + |buf|;
      }
    }

    /** The two writes of save_file put out the text. */
    method Save() returns (file: seq<Byte>)
      requires Valid()
      ensures file == Text()
    {
      file := data[..gap];
      file := file + data[rest..];
    }
  }
}
