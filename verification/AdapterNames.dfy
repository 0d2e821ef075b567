/**
 The loop of TestPacketCapture's `main` that splits the driver's double-NUL-terminated list of
 adapter names into the rows of `AdapterList`.
 */
module AdapterNames {
  import opened Common
  import opened Text

  const MAX_NUM_ADAPTER := 10
  const ROW := 1024

  datatype SplitFault =
    | BeforeStart  // the list is empty: the loop reads the character before the buffer
    | PastEnd      // no two NULs in a row
    | TooMany      // an eleventh name
    | TooLong      // a name longer than a row

  /** The names copied so far, and why the loop cannot go on, if it cannot. */
  datatype Split = Split(names: seq<string>, fault: Option<SplitFault>)

  /** The loop from `temp`, inside the name that starts at `temp1`. */
  function SplitFrom(buf: seq<char>, temp: nat, temp1: nat, names: seq<string>): Split
    requires temp1 <= temp
    decreases |buf| - temp
  {
    if temp >= |buf| then Split(names, Some(PastEnd))
    else if buf[temp] != '\0' then SplitFrom(buf, temp + 1, temp1, names)
    else if temp == 0 then Split(names, Some(BeforeStart))
    else if buf[temp - 1] == '\0' then Split(names, None)
    else if |names| >= MAX_NUM_ADAPTER then Split(names, Some(TooMany))
    else if temp - temp1 > ROW then Split(names, Some(TooLong))
    else SplitFrom(buf, temp + 1, temp + 1, names + [buf[temp1..temp]])
  }

  /** A row of the zero-initialised table after a name was copied into it without a terminator. */
  function RowOf(name: string): (row: seq<char>)
    requires |name| <= ROW
    ensures |row| == ROW
  {
    name + seq(ROW - |name|, i => '\0')
  }

  /** The table, stored row after row, begins with the rows of `names` and is zero beyond them. */
  ghost predicate Filled(list: array<char>, names: seq<string>)
    reads list
  {
    && list.Length == MAX_NUM_ADAPTER * ROW && |names| <= MAX_NUM_ADAPTER
    && (forall i | 0 <= i < |names| :: |names[i]| <= ROW && list[ROW * i..ROW * i + ROW] == RowOf(names[i]))
    && (forall p | ROW * |names| <= p < list.Length :: list[p] == '\0')
  }

  /** `memcpy(AdapterList[i], temp1, len)` into a row that is still zero. */
  method CopyName(list: array<char>, buf: array<char>, temp1: nat, len: nat, ghost names: seq<string>, i: nat)
    requires list != buf && Filled(list, names) && i == |names| < MAX_NUM_ADAPTER
    requires len <= ROW && temp1 + len <= buf.Length
    modifies list
    ensures Filled(list, names + [buf[temp1..temp1 + len]])
  {
    ghost var name := buf[temp1..temp1 + len];
    var row, j := ROW * i, 0;
    while j < len
      invariant j <= len && forall k | 0 <= k < j :: list[row + k] == name[k]
      invariant forall p | 0 <= p < list.Length && !(row <= p < row + j) :: list[p] == old(list[p])
    {
      list[row + j] := buf[temp1 + j];
      j := j + 1;
    }
    ghost var wanted := RowOf(name);
    forall k | 0 <= k < ROW ensures list[row + k] == wanted[k] {
      assert k >= len ==> list[row + k] == old(list[row + k]) == '\0';
    }
    assert list[row..row + ROW] == wanted;
    forall m | 0 <= m < |names| ensures list[ROW * m..ROW * m + ROW] == RowOf(names[m]) {
      assert list[ROW * m..ROW * m + ROW] == old(list[ROW * m..ROW * m + ROW]);
    }
  }

  /** The splitting loop; on a fault the table holds the names copied before it. */
  method SplitAdapterNames(buf: array<char>, list: array<char>) returns (adapterNum: nat, fault: Option<SplitFault>)
    requires list != buf && Filled(list, [])
    modifies list
    ensures var split := SplitFrom(buf[..], 0, 0, []);
      Filled(list, split.names) && adapterNum == |split.names| && fault == split.fault
  {
    var temp, temp1, i := 0, 0, 0;
    ghost var names: seq<string> := [];
    while true
      invariant temp1 <= temp <= buf.Length && i == |names| && Filled(list, names)
      invariant SplitFrom(buf[..], 0, 0, []) == SplitFrom(buf[..], temp, temp1, names)
      decreases buf.Length - temp
    {
      if temp >= buf.Length {
        return i, Some(PastEnd);
      }
      if buf[temp] == '\0' {
        if temp == 0 {
          return i, Some(BeforeStart);
        }
        if buf[temp - 1] == '\0' {
          return i, None;
        }
        if i >= MAX_NUM_ADAPTER {
          return i, Some(TooMany);
        }
        if temp - temp1 > ROW {
          return i, Some(TooLong);
        }
        CopyName(list, buf, temp1, temp - temp1, names, i);
        assert buf[..][temp1..temp] == buf[temp1..temp];
        names := names + [buf[temp1..temp]];
        temp1 := temp + 1;
        i := i + 1;
      }
      temp := temp + 1;
    }
  }

  // -------- What the loop recovers --------

  /** The names with a NUL after each. */
  function Blob(names: seq<string>): seq<char> {
    if names == [] then [] else names[0] + ['\0'] + Blob(names[1..])
  }

  /** What the rows read as, each as a C string; a row without a terminator reads as `None`. */
  function Listed(split: Split): seq<Option<string>>
    requires forall i | 0 <= i < |split.names| :: |split.names[i]| <= ROW
  {
    seq(|split.names|, i requires 0 <= i < |split.names| => CString(RowOf(split.names[i])))
  }

  predicate Reads(rows: seq<Option<string>>, names: seq<string>) {
    |rows| == |names| && forall i | 0 <= i < |names| :: rows[i] == Some(names[i])
  }

  predicate NulFree(names: seq<string>) {
    forall i | 0 <= i < |names| :: '\0' !in names[i]
  }

  predicate NamesFit(names: seq<string>) {
    && 1 <= |names| <= 10
    && forall i | 0 <= i < |names| :: 0 < |names[i]| < 1024
  }

  lemma {:induction false} RowReads(name: string)
    requires |name| <= ROW && '\0' !in name
    ensures CString(RowOf(name)) == if |name| < ROW then Some(name) else None
  {
    if |name| < ROW {
      var zeros := seq(ROW - |name|, i => '\0');
      assert RowOf(name) == name + ['\0'] + zeros[1..];
      CStringOf(name, zeros[1..]);
    } else {
      assert RowOf(name) == name;
    }
  }

  /** The loop runs over the rest of a name without effect. */
  lemma {:induction false} OverName(buf: seq<char>, temp: nat, temp1: nat, end: nat, names: seq<string>)
    requires temp1 <= temp <= end < |buf| && '\0' !in buf[temp..end]
    ensures SplitFrom(buf, temp, temp1, names) == SplitFrom(buf, end, temp1, names)
    decreases end - temp
  {
    if temp < end {
      assert buf[temp..end][0] == buf[temp];
      assert buf[temp..end][1..] == buf[temp + 1..end];
      OverName(buf, temp + 1, temp1, end, names);
    }
  }

  /** Names that fit are copied one after the other, whatever follows them. */
  lemma {:induction false} SplitsOn(before: seq<char>, done: seq<string>, todo: seq<string>, tail: seq<char>)
    requires NulFree(todo) && |done| + |todo| <= MAX_NUM_ADAPTER
    requires forall i | 0 <= i < |todo| :: 0 < |todo[i]| <= ROW
    ensures var buf, at := before + (Blob(todo) + tail), |before| + |Blob(todo)|;
      SplitFrom(buf, |before|, |before|, done) == SplitFrom(buf, at, at, done + todo)
    decreases |todo|
  {
    var buf, at := before + (Blob(todo) + tail), |before|;
    if todo == [] {
      assert done + todo == done;
    } else {
      var name := todo[0];
      var before' := before + name + ['\0'];
      assert buf == before' + (Blob(todo[1..]) + tail);
      OneName(before, name, Blob(todo[1..]) + tail, done);
      SplitsOn(before', done + [name], todo[1..], tail);
      assert done + [name] + todo[1..] == done + todo;
    }
  }

  lemma {:induction false} OneName(before: seq<char>, name: string, tail: seq<char>, done: seq<string>)
    requires '\0' !in name && 0 < |name| <= ROW && |done| < MAX_NUM_ADAPTER
    ensures var buf, at := before + name + ['\0'] + tail, |before| + |name| + 1;
      SplitFrom(buf, |before|, |before|, done) == SplitFrom(buf, at, at, done + [name])
  {
    var buf, at := before + name + ['\0'] + tail, |before|;
    var end := at + |name|;
    assert buf[at..end] == name && buf[end] == '\0';
    OverName(buf, at, at, end, done);
    assert buf[end - 1] == name[|name| - 1];
  }

  lemma {:induction false} BlobEnds(names: seq<string>)
    requires names != []
    ensures Blob(names) != [] && Blob(names)[|Blob(names)| - 1] == '\0'
  {
    if |names| > 1 {
      BlobEnds(names[1..]);
    }
  }

  /** Where the list ends: after names that fit, the second NUL ends the loop. */
  lemma {:induction false} SplitsWhole(names: seq<string>, rest: seq<char>)
    requires names != [] && NulFree(names) && |names| <= MAX_NUM_ADAPTER
    requires forall i | 0 <= i < |names| :: 0 < |names[i]| <= ROW
    ensures SplitFrom(Blob(names) + ['\0'] + rest, 0, 0, []) == Split(names, None)
  {
    var buf, at := Blob(names) + ['\0'] + rest, |Blob(names)|;
    assert [] + (Blob(names) + (['\0'] + rest)) == buf && [] + names == names;
    SplitsOn([], [], names, ['\0'] + rest);
    BlobEnds(names);
    assert buf[at] == '\0' && buf[at - 1] == Blob(names)[at - 1];
  }

  /** After names that fit, an eleventh name or one of more than 1024 characters stops the loop. */
  lemma {:induction false} FaultyName(names: seq<string>, name: string, rest: seq<char>)
    requires NulFree(names) && |names| <= 10 && forall i | 0 <= i < |names| :: 0 < |names[i]| <= 1024
    requires '\0' !in name && name != ""
    ensures var split := SplitFrom(Blob(names) + (name + ['\0'] + rest), 0, 0, []);
      && (|names| == 10 ==> split == Split(names, Some(TooMany)))
      && (|names| < 10 && |name| > 1024 ==> split == Split(names, Some(TooLong)))
  {
    var tail := name + ['\0'] + rest;
    var buf, at := Blob(names) + tail, |Blob(names)|;
    assert [] + buf == buf && [] + names == names;
    SplitsOn([], [], names, tail);
    var end := at + |name|;
    assert buf[at..end] == name && buf[end] == '\0' && buf[end - 1] == name[|name| - 1];
    OverName(buf, at, at, end, names);
  }

  /** A list without its second NUL is read past its end, with or without a name cut off there. */
  lemma {:induction false} NoSecondNul(names: seq<string>, cut: string)
    requires NulFree(names) && |names| <= 10 && forall i | 0 <= i < |names| :: 0 < |names[i]| <= 1024
    requires '\0' !in cut
    ensures SplitFrom(Blob(names) + cut, 0, 0, []) == Split(names, Some(PastEnd))
  {
    var buf, at := Blob(names) + cut, |Blob(names)|;
    assert [] + buf == buf && [] + names == names;
    SplitsOn([], [], names, cut);
    assert buf[at..] == cut;
    RunsOut(buf, at, at, names);
  }

  /** With a NUL at its start, the list is read before its start. */
  lemma {:induction false} LeadingNul(buf: seq<char>)
    requires buf != []
    ensures SplitFrom(buf, 0, 0, []).fault == Some(BeforeStart) <==> buf[0] == '\0'
  {
    if buf[0] != '\0' {
      NotBeforeStart(buf, 1, 0, []);
    }
  }

  lemma {:induction false} NotBeforeStart(buf: seq<char>, temp: nat, temp1: nat, names: seq<string>)
    requires temp1 <= temp && temp > 0
    ensures SplitFrom(buf, temp, temp1, names).fault != Some(BeforeStart)
    decreases |buf| - temp
  {
    if temp < |buf| {
      if buf[temp] != '\0' {
        NotBeforeStart(buf, temp + 1, temp1, names);
      } else if buf[temp - 1] != '\0' && |names| < MAX_NUM_ADAPTER && temp - temp1 <= ROW {
        NotBeforeStart(buf, temp + 1, temp + 1, names + [buf[temp1..temp]]);
      }
    }
  }

  lemma {:induction false} RunsOut(buf: seq<char>, temp: nat, temp1: nat, names: seq<string>)
    requires temp1 <= temp <= |buf| && '\0' !in buf[temp..]
    ensures SplitFrom(buf, temp, temp1, names) == Split(names, Some(PastEnd))
    decreases |buf| - temp
  {
    if temp < |buf| {
      assert buf[temp..][0] == buf[temp] && buf[temp..][1..] == buf[temp + 1..];
      RunsOut(buf, temp + 1, temp1, names);
    }
  }

  /** What the loop delivers is always one to ten names, none of them empty or longer than a row. */
  lemma {:induction false} DeliversFitting(buf: seq<char>, temp: nat, temp1: nat, names: seq<string>)
    requires temp1 <= temp <= |buf| && '\0' !in buf[temp1..temp] && |names| <= MAX_NUM_ADAPTER
    requires if temp1 == 0 then names == [] else names != [] && buf[temp1 - 1] == '\0'
    requires NulFree(names) && forall i | 0 <= i < |names| :: 0 < |names[i]| <= ROW
    ensures var split := SplitFrom(buf, temp, temp1, names);
      && NulFree(split.names)
      && |split.names| <= 10
      && (split.fault == None ==> split.names != [])
      && forall i | 0 <= i < |split.names| :: 0 < |split.names[i]| <= 1024
    decreases |buf| - temp
  {
    if temp < |buf| {
      if buf[temp] != '\0' {
        assert buf[temp1..temp + 1] == buf[temp1..temp] + [buf[temp]];
        DeliversFitting(buf, temp + 1, temp1, names);
      } else if temp > 0 && buf[temp - 1] != '\0' && |names| < MAX_NUM_ADAPTER && temp - temp1 <= ROW {
        DeliversFitting(buf, temp + 1, temp + 1, names + [buf[temp1..temp]]);
      } else if temp > temp1 {
        assert buf[temp1..temp][temp - temp1 - 1] == buf[temp - 1];
      }
    }
  }

  /**
   The exact condition: reading the table back gives the driver's names if and only if there are one
   to ten of them, none empty and none as long as a row.
   */
  lemma {:induction false} SplitExactly(names: seq<string>, rest: seq<char>)
    requires NulFree(names)
    ensures var split := SplitFrom(Blob(names) + ['\0'] + rest, 0, 0, []);
      && (forall i | 0 <= i < |split.names| :: |split.names[i]| <= ROW)
      && (split.fault == None && Reads(Listed(split), names) <==> NamesFit(names))
  {
    var buf := Blob(names) + ['\0'] + rest;
    var split := SplitFrom(buf, 0, 0, []);
    DeliversFitting(buf, 0, 0, []);
    ListedNames(split.names, split.fault);
    if NamesFit(names) {
      SplitsWhole(names, rest);
    }
  }

  lemma {:induction false} ListedNames(names: seq<string>, fault: Option<SplitFault>)
    requires NulFree(names) && forall i | 0 <= i < |names| :: |names[i]| <= ROW
    ensures forall i | 0 <= i < |names| ::
      Listed(Split(names, fault))[i] == if |names[i]| < ROW then Some(names[i]) else None
  {
    forall i | 0 <= i < |names| ensures CString(RowOf(names[i])) == if |names[i]| < ROW then Some(names[i]) else None {
      RowReads(names[i]);
    }
  }
}
