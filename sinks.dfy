/** Where finished records go (writer.go): a fan-out list of writers, and a
    buffered file writer that rotates its file once it grows past a size
    limit. The file system is a map from file name to contents. */
module Sinks {
  import opened Bytes

  /** The errors a writer reports. `NotNil` is the error of the gopak
      `common` package that MultipleWriter returns when it holds no writer. */
  datatype IoError = NotNil(what: string) | Failed(code: int)

  /** A writer whose own behaviour is not part of this model (the console,
      or any other io.Writer): it keeps every byte string handed to it, and
      either accepts it whole or always fails with the same error. */
  class Sink {
    var received: seq<seq<byte>>
    var closes: nat
    const fault: Option<IoError>

    constructor (fault: Option<IoError>)
      ensures received == [] && closes == 0 && this.fault == fault
    {
      received := [];
      closes := 0;
      this.fault := fault;
    }

    method Write(p: seq<byte>) returns (n: int, err: Option<IoError>)
      modifies this
      ensures received == old(received) + [p] && closes == old(closes)
      ensures err == fault && n == if fault.None? then |p| else 0
    {
      received := received + [p];
      err := fault;
      n := if fault.None? then |p| else 0;
    }

    method Close()
      modifies this
      ensures closes == old(closes) + 1 && received == old(received)
    {
      closes := closes + 1;
    }
  }

  function Reverse<T>(s: seq<T>): (r: seq<T>)
    ensures |r| == |s|
    ensures forall j :: 0 <= j < |s| ==> r[j] == s[|s| - 1 - j]
  {
    if s == [] then [] else Reverse(s[1..]) + [s[0]]
  }

  /** How often `s` occurs in `ws`. */
  function Count(ws: seq<Sink>, s: Sink): nat {
    if ws == [] then 0 else (if ws[0] == s then 1 else 0) + Count(ws[1..], s)
  }

  lemma {:induction false} CountSnoc(ws: seq<Sink>, w: Sink, s: Sink)
    ensures Count(ws + [w], s) == Count(ws, s) + if w == s then 1 else 0
    decreases |ws|
  {
    if ws == [] {
      assert [w][1..] == [];
    } else {
      assert (ws + [w])[1..] == ws[1..] + [w];
      CountSnoc(ws[1..], w, s);
    }
  }

  /** `c` copies of `p`. */
  function Repeat(p: seq<byte>, c: nat): (r: seq<seq<byte>>)
    ensures |r| == c && forall j :: 0 <= j < c ==> r[j] == p
  {
    if c == 0 then [] else Repeat(p, c - 1) + [p]
  }

  /** The index of the first writer in `ws` that fails, or |ws|. */
  function FirstFault(ws: seq<Sink>): (k: nat)
    ensures k <= |ws|
    ensures forall j :: 0 <= j < k ==> ws[j].fault.None?
    ensures k < |ws| ==> ws[k].fault.Some?
  {
    if ws == [] then 0
    else if ws[0].fault.Some? then 0
    else 1 + FirstFault(ws[1..])
  }

  /** The writers a Write visits: all of them, or those up to and
      including the first that fails. */
  function Called(ws: seq<Sink>): (c: seq<Sink>)
    ensures FirstFault(ws) < |ws| ==> c == ws[..FirstFault(ws) + 1]
    ensures FirstFault(ws) == |ws| ==> c == ws
  {
    var k := FirstFault(ws);
    if k < |ws| then ws[..k + 1] else ws
  }

  /** What MultipleWriter.Write returns: the count and error of the first
      writer that fails, `(len(p), nil)` when none does, and the `NotNil`
      error for an empty list. */
  function WriteResult(ws: seq<Sink>, p: seq<byte>): (r: (int, Option<IoError>))
    ensures ws == [] ==> r == (0, Some(NotNil("未找到对象")))
    ensures ws != [] && FirstFault(ws) < |ws| ==> r == (0, ws[FirstFault(ws)].fault) && r.1.Some?
    ensures ws != [] && FirstFault(ws) == |ws| ==> r == (|p|, None)
  {
    if ws == [] then (0, Some(NotNil("未找到对象")))
    else if FirstFault(ws) < |ws| then (0, ws[FirstFault(ws)].fault)
    else (|p|, None)
  }

  /** What a writer had received and how often it had been closed. */
  datatype Snapshot = Snapshot(received: seq<seq<byte>>, closes: nat)

  /** Every writer of `ws` has received `p` once for each of its
      occurrences among the first `i`, after what it held `before`, and has
      not been closed. */
  ghost predicate Delivered(ws: seq<Sink>, before: map<Sink, Snapshot>, p: seq<byte>, i: nat)
    requires i <= |ws|
    reads set s: Sink | s in ws
  {
    forall s: Sink :: s in ws ==>
      s in before && s.received == before[s].received + Repeat(p, Count(ws[..i], s)) && s.closes == before[s].closes
  }

  /** One step of MultipleWriter.Write: the i-th writer gets `p`. */
  method WriteOne(w: Sink, p: seq<byte>, ghost ws: seq<Sink>, ghost before: map<Sink, Snapshot>, ghost i: nat)
    returns (n: int, err: Option<IoError>)
    requires i < |ws| && ws[i] == w && Delivered(ws, before, p, i)
    modifies w
    ensures Delivered(ws, before, p, i + 1)
    ensures err == w.fault && n == if w.fault.None? then |p| else 0
  {
    n, err := w.Write(p);
    forall s: Sink | s in ws
      ensures s in before && s.received == before[s].received + Repeat(p, Count(ws[..i + 1], s))
    {
      assert ws[..i + 1] == ws[..i] + [w];
      CountSnoc(ws[..i], w, s);
    }
  }

  /** A node of the fan-out list. `Nodes` are the nodes from this one on,
      linked by `next`, and `Writers` their writers, in the order Write
      visits them; a list whose single node holds no writer is empty. */
  class MultipleWriter {
    var writer: Sink?
    const next: MultipleWriter?
    ghost var Nodes: seq<MultipleWriter>
    ghost var Writers: seq<Sink>

    ghost predicate Valid()
      reads this, Nodes
    {
      1 <= |Nodes| && Nodes[0] == this && Nodes[|Nodes| - 1].next == null &&
      (forall j :: 0 <= j < |Nodes| - 1 ==> Nodes[j].next == Nodes[j + 1]) &&
      (writer == null ==> |Nodes| == 1 && Writers == []) &&
      (writer != null ==> |Writers| == |Nodes| && forall j :: 0 <= j < |Nodes| ==> Nodes[j].writer == Writers[j])
    }

    constructor (writer: Sink?, next: MultipleWriter?)
      requires next != null ==> next.Valid() && writer != null && next.writer != null
      ensures this.writer == writer && this.next == next
      ensures Valid() && Writers == (if writer == null then [] else [writer]) + (if next == null then [] else next.Writers)
      ensures Nodes == [this] + (if next == null then [] else next.Nodes)
    {
      this.writer := writer;
      this.next := next;
      Writers := (if writer == null then [] else [writer]) + (if next == null then [] else next.Writers);
      Nodes := [this] + (if next == null then [] else next.Nodes);
      new;
      if next != null {
        forall j | 1 <= j < |Nodes|
          ensures Nodes[j] == next.Nodes[j - 1] && Nodes[j].writer == Writers[j]
        {
        }
      }
    }

    /** Write: hands `p` to each writer in list order and stops at the first
      that fails, returning its result; `(len(p), nil)` when all succeed, and
      an error without writing anything when the list holds no writer. */
    method Write(p: seq<byte>) returns (n: int, err: Option<IoError>)
      requires Valid()
      modifies set s: Sink | s in Writers
      ensures forall s: Sink :: s in old(Writers) ==>
                s.received == old(s.received) + Repeat(p, Count(Called(old(Writers)), s)) && s.closes == old(s.closes)
      ensures (n, err) == WriteResult(old(Writers), p)
    {
      if writer == null {
        return 0, Some(NotNil("未找到对象"));
      }
      ghost var ws := Writers;
      ghost var before := map s: Sink | s in ws :: Snapshot(s.received, s.closes);
      n, err := WriteNodes(p, before);
      forall s: Sink | s in ws
        ensures s.received == old(s.received) + Repeat(p, Count(Called(ws), s)) && s.closes == old(s.closes)
      {
        assert before[s] == Snapshot(old(s.received), old(s.closes));
        assert ws[..|Called(ws)|] == Called(ws);
      }
    }

    /** The loop of Write over a list that holds at least one writer. */
    method WriteNodes(p: seq<byte>, ghost before: map<Sink, Snapshot>) returns (n: int, err: Option<IoError>)
      requires Valid() && writer != null && Delivered(Writers, before, p, 0)
      modifies set s: Sink | s in Writers
      ensures Delivered(old(Writers), before, p, |Called(old(Writers))|)
      ensures (n, err) == WriteResult(old(Writers), p)
    {
      ghost var ws := Writers;
      ghost var nodes := Nodes;
      var curr := this;
      ghost var i := 0;
      n, err := |p|, None;
      while curr != null && err.None?
        invariant 0 <= i <= |ws| == |nodes|
        invariant curr == if i < |ws| then nodes[i] else null
        invariant nodes[|nodes| - 1].next == null
        invariant forall j :: 0 <= j < |nodes| - 1 ==> nodes[j].next == nodes[j + 1]
        invariant err.None? ==> i <= FirstFault(ws) && n == |p|
        invariant err.Some? ==> 0 < i && FirstFault(ws) == i - 1 && n == 0 && err == ws[i - 1].fault
        invariant Delivered(ws, before, p, i)
        decreases |ws| - i
      {
        var w := curr.writer;
        assert w == old(nodes[i].writer) == ws[i];
        n, err := WriteOne(w, p, ws, before, i);
        if err.None? {
          n := |p|;
        }
        curr := curr.next;
        i := i + 1;
      }
    }

    /** Close: closes every writer in list order. Go calls Close on a nil
        interface, and panics, when the list holds no writer. */
    method Close()
      requires Valid() && writer != null
      modifies set s: Sink | s in Writers
      ensures forall s: Sink :: s in old(Writers) ==>
                s.closes == old(s.closes) + Count(old(Writers), s) && s.received == old(s.received)
    {
      var curr := this;
      ghost var i := 0;
      while curr != null
        invariant 0 <= i <= |Writers| == |Nodes|
        invariant curr == if i < |Writers| then Nodes[i] else null
        invariant Valid()
        invariant forall s: Sink :: s in Writers ==>
                    s.closes == old(s.closes) + Count(Writers[..i], s) && s.received == old(s.received)
        decreases |Writers| - i
      {
        var w := curr.writer;
        assert w == Writers[i];
        w.Close();
        forall s: Sink | s in Writers
          ensures s.closes == old(s.closes) + Count(Writers[..i + 1], s)
        {
          assert Writers[..i + 1] == Writers[..i] + [w];
          CountSnoc(Writers[..i], w, s);
        }
        curr := curr.next;
        i := i + 1;
      }
      assert Writers[..i] == Writers;
    }
  }

  /** NewMultipleWriter: the first writer goes into the initial node, and
      every later one into a new node in front, so the list visits the
      writers in the reverse of the argument order. */
  method NewMultipleWriter(writers: seq<Sink>) returns (m: MultipleWriter)
    ensures m.Valid() && fresh(m)
    ensures m.Writers == Reverse(writers)
    ensures writers == [] <==> m.writer == null
  {
    m := new MultipleWriter(null, null);
    var i := 0;
    while i < |writers|
      invariant 0 <= i <= |writers|
      invariant m.Valid() && fresh(m)
      invariant m.Writers == Reverse(writers[..i])
      invariant i == 0 <==> m.writer == null
    {
      var w := writers[i];
      assert writers[..i + 1][1..] == writers[1..i + 1];
      if m.writer == null {
        m.writer := w;
        m.Writers := [w];
        assert writers[..i + 1] == [w];
      } else {
        m := new MultipleWriter(w, m);
        ReverseSnoc(writers[..i], w);
        assert writers[..i + 1] == writers[..i] + [w];
      }
      i := i + 1;
    }
    assert writers[..i] == writers;
  }

  lemma {:induction false} ReverseSnoc<T>(s: seq<T>, x: T)
    ensures Reverse(s + [x]) == [x] + Reverse(s)
    decreases |s|
  {
    if s == [] {
      assert [x][1..] == [];
    } else {
      assert (s + [x])[1..] == s[1..] + [x];
      ReverseSnoc(s[1..], x);
    }
  }

  // ---------------------------------------------------------------------
  // The buffered, rotating file writer.

  /** The files, and the gzip archives by name with the bytes each holds. */
  class FileSystem {
    var files: map<seq<byte>, seq<byte>>
    var archives: map<seq<byte>, seq<byte>>

    constructor (files: map<seq<byte>, seq<byte>>)
      ensures this.files == files && archives == map[]
    {
      this.files := files;
      archives := map[];
    }
  }

  /** The part of the world a flush changes: the file system, the rotation
      count and whether the writer's file handle is open. */
  datatype Disk = Disk(files: map<seq<byte>, seq<byte>>, archives: map<seq<byte>, seq<byte>>, saveIndex: int, open: bool)

  const BUFFER_CAPACITY := 2 * 1024 * 1024
  const GZ_SUFFIX: seq<byte> := Ascii(".log.gz")

  /** The name a rotated file is renamed to. */
  function RotatedName(fileName: seq<byte>, saveIndex: int): (r: seq<byte>)
    ensures |r| > |fileName| && r[..|fileName|] == fileName
  {
    fileName + Ascii(Itoa(saveIndex))
  }

  /** Whether a flush rotates: os.Stat succeeds and the file is larger than
      the limit. */
  predicate Rotates(d: Disk, fileName: seq<byte>, maxCapacity: int) {
    fileName in d.files && |d.files[fileName]| > maxCapacity
  }

  /** The rotation itself: the file is renamed to its numbered name, a new
      empty file is opened under the old name, and the numbered file is
      compressed into `<name><n>.log.gz` and removed. */
  function Rotate(d: Disk, fileName: seq<byte>): (r: Disk)
    requires fileName in d.files
    ensures r.saveIndex == d.saveIndex + 1 && r.open
    ensures var temp := RotatedName(fileName, r.saveIndex);
            r.files == (d.files - {temp})[fileName := []] &&
            r.archives == d.archives[temp + GZ_SUFFIX := d.files[fileName]]
  {
    var index := d.saveIndex + 1;
    var temp := RotatedName(fileName, index);
    var renamed := (d.files - {fileName})[temp := d.files[fileName]];
    var created := renamed[fileName := []];
    Disk(created - {temp}, d.archives[temp + GZ_SUFFIX := created[temp]], index, true)
  }

  /** The bytes written through an open handle land at the end of the file;
      through a closed one (or to a file no longer there) they are lost. */
  function WriteFile(d: Disk, fileName: seq<byte>, p: seq<byte>): Disk {
    if d.open && fileName in d.files then d.(files := d.files[fileName := d.files[fileName] + p]) else d
  }

  /** writeToDisk as written: on rotation at close the new file is closed
      before the pending bytes are written to it. */
  function Flush(d: Disk, fileName: seq<byte>, maxCapacity: int, isClose: bool, pending: seq<byte>): Disk {
    if Rotates(d, fileName, maxCapacity) then
      var r := Rotate(d, fileName);
      WriteFile(if isClose then r.(open := false) else r, fileName, pending)
    else WriteFile(d, fileName, pending)
  }

  /** writeToDisk as evidently intended: the pending bytes are written
      before the file is closed. */
  function FlushFixed(d: Disk, fileName: seq<byte>, maxCapacity: int, isClose: bool, pending: seq<byte>): Disk {
    if Rotates(d, fileName, maxCapacity) then
      var r := WriteFile(Rotate(d, fileName), fileName, pending);
      if isClose then r.(open := false) else r
    else WriteFile(d, fileName, pending)
  }

  /** Below the limit a flush appends the pending bytes to the open file. */
  lemma FlushAppends(d: Disk, fileName: seq<byte>, maxCapacity: int, isClose: bool, pending: seq<byte>)
    requires d.open && fileName in d.files && |d.files[fileName]| <= maxCapacity
    ensures var r := Flush(d, fileName, maxCapacity, isClose, pending);
            r.files == d.files[fileName := d.files[fileName] + pending] &&
            r.archives == d.archives && r.saveIndex == d.saveIndex && r.open
  {
  }

  /** A flush while the writer keeps running rotates an oversized file:
      the index goes up by one, the old contents end up in the numbered
      archive, and the new file holds exactly the pending bytes. */
  lemma FlushRotates(d: Disk, fileName: seq<byte>, maxCapacity: int, pending: seq<byte>)
    requires Rotates(d, fileName, maxCapacity)
    ensures var r := Flush(d, fileName, maxCapacity, false, pending);
            var temp := RotatedName(fileName, d.saveIndex + 1);
            r.saveIndex == d.saveIndex + 1 && r.open && r.files[fileName] == pending &&
            temp !in r.files && r.archives[temp + GZ_SUFFIX] == d.files[fileName]
  {
  }

  /** The defect: closing a writer whose file is over the limit loses
      whatever was still buffered, as the bytes go to a closed handle. */
  lemma CloseWithRotationDropsPending(d: Disk, fileName: seq<byte>, maxCapacity: int, pending: seq<byte>)
    requires Rotates(d, fileName, maxCapacity)
    ensures var r := Flush(d, fileName, maxCapacity, true, pending);
            !r.open && r.files[fileName] == []
  {
  }

  /** The intended behaviour: the buffered bytes are written to the new file
      before it is closed; without a rotation both flushes agree. */
  lemma FlushFixedKeepsPending(d: Disk, fileName: seq<byte>, maxCapacity: int, isClose: bool, pending: seq<byte>)
    requires Rotates(d, fileName, maxCapacity)
    ensures var r := FlushFixed(d, fileName, maxCapacity, isClose, pending);
            r.files[fileName] == pending && r.open == !isClose &&
            r.saveIndex == d.saveIndex + 1
    ensures !isClose ==> FlushFixed(d, fileName, maxCapacity, isClose, pending) == Flush(d, fileName, maxCapacity, isClose, pending)
  {
  }

  lemma FlushFixedAgreesWithoutRotation(d: Disk, fileName: seq<byte>, maxCapacity: int, isClose: bool, pending: seq<byte>)
    requires !Rotates(d, fileName, maxCapacity)
    ensures FlushFixed(d, fileName, maxCapacity, isClose, pending) == Flush(d, fileName, maxCapacity, isClose, pending)
  {
  }

  class FileWriter {
    const fs: FileSystem
    const fileName: seq<byte>
    const maxCapacity: int64
    var saveIndex: int
    const buffer: array<byte>
    var buflen: int
    /** Whether the writer's file handle is open. */
    var open: bool

    ghost predicate Valid()
      reads this
    {
      0 <= buflen <= buffer.Length
    }

    function Pending(): seq<byte>
      requires Valid()
      reads this, buffer
    {
      buffer[..buflen]
    }

    function State(): Disk
      reads this, fs
    {
      Disk(fs.files, fs.archives, saveIndex, open)
    }

    /** NewFileWriter, once createLogWriteFile has opened (and if need be
        created) the file: an empty 2 MiB buffer and rotation index 0. */
    constructor (fs: FileSystem, fileName: seq<byte>, maxCapacity: int64)
      modifies fs
      ensures this.fs == fs && this.fileName == fileName && this.maxCapacity == maxCapacity
      ensures Valid() && Pending() == [] && saveIndex == 0 && open
      ensures buffer.Length == BUFFER_CAPACITY && fresh(buffer)
      ensures fs.files == if fileName in old(fs.files) then old(fs.files) else old(fs.files)[fileName := []]
      ensures fs.archives == old(fs.archives)
    {
      this.fs := fs;
      this.fileName := fileName;
      this.maxCapacity := maxCapacity;
      saveIndex := 0;
      buffer := new byte[BUFFER_CAPACITY](j => 0);
      buflen := 0;
      open := true;
      new;
      if fileName !in fs.files {
        fs.files := fs.files[fileName := []];
      }
    }

    /** writeToDisk: rotate if the file has grown past the limit, then write
        the buffered bytes through the file handle and empty the buffer. */
    method WriteToDisk(isClose: bool)
      requires Valid()
      modifies this, fs
      ensures State() == Flush(old(State()), fileName, maxCapacity as int, isClose, old(Pending()))
      ensures buflen == 0 && Valid()
    {
      var pending := buffer[..buflen];
      if fileName in fs.files && |fs.files[fileName]| > maxCapacity as int {
        ghost var d := State();
        saveIndex := saveIndex + 1;
        open := false;
        var tempName := RotatedName(fileName, saveIndex);
        fs.files := (fs.files - {fileName})[tempName := fs.files[fileName]];
        fs.files := fs.files[fileName := []];
        open := true;
        fs.archives := fs.archives[tempName + GZ_SUFFIX := fs.files[tempName]];
        fs.files := fs.files - {tempName};
        assert State() == Rotate(d, fileName);
        if isClose {
          open := false;
        }
      }
      if open && fileName in fs.files {
        fs.files := fs.files[fileName := fs.files[fileName] + pending];
      }
      buflen := 0;
    }

    /** Write: flush first when `p` does not fit in the free part of the
        buffer, then copy `p` after the buffered bytes. A `p` longer than
        the whole buffer is cut short by the copy while `buflen` still grows
        by its full length, leaving the writer broken. */
    method Write(p: seq<byte>) returns (n: int, err: Option<IoError>)
      requires Valid()
      modifies this, fs, buffer
      ensures n == |p| && err.None?
      ensures var flushed := |p| > buffer.Length - old(buflen);
              buflen == (if flushed then 0 else old(buflen)) + |p| &&
              State() == (if flushed then Flush(old(State()), fileName, maxCapacity as int, false, old(Pending()))
                          else old(State()))
      ensures |p| <= buffer.Length ==>
                Valid() && Pending() == (if |p| > buffer.Length - old(buflen) then [] else old(Pending())) + p
      ensures |p| > buffer.Length ==> !Valid()
    {
      if |p| > buffer.Length - buflen {
        WriteToDisk(false);
      }
      var count := if |p| < buffer.Length - buflen then |p| else buffer.Length - buflen;
      CopyIn(p[..count]);
      if |p| <= buffer.Length - buflen {
        assert p[..count] == p;
      }
      buflen := buflen + |p|;
      return |p|, None;
    }

    /** copy(w.buffer[w.buflen:], q) for a `q` that fits. */
    method CopyIn(q: seq<byte>)
      requires Valid() && |q| <= buffer.Length - buflen
      modifies buffer
      ensures buffer[..buflen + |q|] == old(Pending()) + q
    {
      ghost var kept := buffer[..buflen];
      var j := 0;
      while j < |q|
        invariant 0 <= j <= |q|
        invariant buffer[..buflen] == kept
        invariant forall t :: 0 <= t < j ==> buffer[buflen + t] == q[t]
      {
        buffer[buflen + j] := q[j];
        j := j + 1;
      }
      assert buffer[..buflen + |q|] == kept + q;
    }

    /** Write as evidently intended: a `p` larger than the whole buffer is
        written straight to the file after the flush, so the buffer stays
        consistent and no byte is lost. */
    method WriteChecked(p: seq<byte>) returns (n: int, err: Option<IoError>)
      requires Valid()
      modifies this, fs, buffer
      ensures n == |p| && err.None? && Valid()
      ensures var flushed := |p| > buffer.Length - old(buflen);
              var d := if flushed then Flush(old(State()), fileName, maxCapacity as int, false, old(Pending())) else old(State());
              if |p| > buffer.Length then State() == WriteFile(d, fileName, p) && Pending() == []
              else State() == d && Pending() == (if flushed then [] else old(Pending())) + p
    {
      if |p| > buffer.Length - buflen {
        WriteToDisk(false);
      }
      if |p| > buffer.Length {
        if open && fileName in fs.files {
          fs.files := fs.files[fileName := fs.files[fileName] + p];
        }
      } else {
        CopyIn(p);
        buflen := buflen + |p|;
      }
      return |p|, None;
    }

    /** Close: the final flush. */
    method Close()
      requires Valid()
      modifies this, fs
      ensures State() == Flush(old(State()), fileName, maxCapacity as int, true, old(Pending()))
      ensures buflen == 0 && Valid()
    {
      WriteToDisk(true);
    }
  }
}
