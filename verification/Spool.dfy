/**
 The offline spool: a file of one record per line, appended to and compacted in place
 (apps/trace-station/src/spool.rs). A write may stop after any character; a file that does not
 exist reads as empty.
 */
module Spool {
  import opened Collections
  import opened Faults
  import opened Json

  /** A queued event. */
  datatype Record = Record(id: string, topic: string, payload: Document, recordedAt: string, attempts: nat)

  /** The line format; `SpoolJson` gives the one in use. */
  datatype Codec = Codec(encode: Record -> string, decode: string -> Option<Record>)

  /** Text made of one or more non-empty beginnings of encoded records, each cut off anywhere. */
  ghost predicate Pieces(codec: Codec, text: string, count: nat)
    decreases count
  {
    if count == 0 then text == ""
    else
      exists before, r, k: nat ::
        Pieces(codec, before, count - 1) && Cut(codec, r, k) && text == before + codec.encode(r)[..k]
  }

  ghost predicate Cut(codec: Codec, r: Record, k: nat) {
    0 < k <= |codec.encode(r)|
  }

  /**
   What the queue needs of a line format: a record decodes from its own line; a line has no line break
   and is not blank; a record cut short does not decode, and neither do several beginnings run together.
   */
  ghost predicate Sound(codec: Codec) {
    && (forall r :: codec.decode(codec.encode(r)) == Some(r))
    && (forall r :: '\n' !in codec.encode(r) && '\r' !in codec.encode(r) && !IsBlank(codec.encode(r)))
    && (forall r, k: nat :: Cut(codec, r, k) && k < |codec.encode(r)| ==> codec.decode(codec.encode(r)[..k]) == None)
    && (forall text, count: nat :: Pieces(codec, text, count) && count >= 2 ==> codec.decode(text) == None)
  }

  // ------------------------------------------------------------ reading

  predicate IsBlank(line: string) {
    forall c :: c in line ==> c in {' ', '\t', '\n', '\r', 11 as char, 12 as char}
  }

  function WithoutCr(line: string): string {
    if line != "" && line[|line| - 1] == '\r' then line[..|line| - 1] else line
  }

  /** Reading a text character by character: the lines ended so far, and the one being read. */
  datatype Reading = Reading(lines: seq<string>, current: string)

  function Feed(at: Reading, c: char): Reading {
    if c == '\n' then Reading(at.lines + [WithoutCr(at.current)], "") else Reading(at.lines, at.current + [c])
  }

  function ReadFrom(at: Reading, text: string): Reading {
    if text == "" then at else Feed(ReadFrom(at, text[..|text| - 1]), text[|text| - 1])
  }

  function Read(text: string): Reading {
    ReadFrom(Reading([], ""), text)
  }

  /** The lines of a text: a trailing line feed ends the last one, CR LF counts as one line end. */
  function Lines(text: string): seq<string> {
    var at := Read(text);
    at.lines + (if at.current == "" then [] else [at.current])
  }

  function Parsed(codec: Codec, line: string): seq<Record> {
    if IsBlank(line) then []
    else match codec.decode(line) case Some(r) => [r] case None => []
  }

  /** The records of all readable lines, in order. */
  function Loaded(codec: Codec, lines: seq<string>): seq<Record> {
    if lines == [] then [] else Loaded(codec, lines[..|lines| - 1]) + Parsed(codec, lines[|lines| - 1])
  }

  function LineOf(codec: Codec, r: Record): string {
    codec.encode(r) + "\n"
  }

  function Image(codec: Codec, records: seq<Record>): string {
    if records == [] then "" else Image(codec, records[..|records| - 1]) + LineOf(codec, records[|records| - 1])
  }

  function Unacknowledged(records: seq<Record>, acked: set<string>): seq<Record> {
    if records == [] then [] else
      var last := records[|records| - 1];
      Unacknowledged(records[..|records| - 1], acked) + (if last.id in acked then [] else [last])
  }

  // ------------------------------------------------------------ the spool

  predicate NotIn(acked: set<string>, r: Record) {
    r.id !in acked
  }

  /**
   `after` is what `before` holds at some ascending places: exactly those of the records whose id is not
   among the acknowledged.
   */
  ghost predicate LeftOf(before: seq<Record>, acked: set<string>, after: seq<Record>) {
    IsKeptOf(r => NotIn(acked, r), before, after)
  }

  lemma {:induction false} UnacknowledgedIsLeft(records: seq<Record>, acked: set<string>) returns (kept: seq<nat>)
    ensures KeptAt(r => NotIn(acked, r), records, Unacknowledged(records, acked), kept)
  {
    if records == [] {
      kept := [];
    } else {
      var n := |records| - 1;
      var earlier := UnacknowledgedIsLeft(records[..n], acked);
      KeptOneMore(r => NotIn(acked, r), records[..n], Unacknowledged(records[..n], acked), earlier, records[n]);
      assert records == records[..n] + [records[n]];
      assert Unacknowledged(records[..n], acked) + [] == Unacknowledged(records[..n], acked);
      kept := if records[n].id in acked then earlier else earlier + [n];
    }
  }

  /** What can happen to the file. A crash and a failed write leave the same traces. */
  datatype Op =
    | Appended(r: Record)
    | Torn(r: Record, k: nat)
    | Compacted(acked: set<string>)
    | NotCompacted

  function After(codec: Codec, file: string, op: Op): string {
    match op
    case Appended(r) => file + LineOf(codec, r)
    case Torn(r, k) => if k <= |LineOf(codec, r)| then file + LineOf(codec, r)[..k] else file
    case Compacted(acked) => Image(codec, Unacknowledged(Loaded(codec, Lines(file)), acked))
    case NotCompacted => file
  }

  class Spool {
    const codec: Codec
    const os: Calls
    var file: string
    var temporary: string

    constructor (codec: Codec, os: Calls)
      ensures this.codec == codec && this.os == os && file == ""
    {
      this.codec, this.os := codec, os;
      file, temporary := "", "";
    }

    /**
     Appends a line; true means all of it is on disk, as it is unless a call fails. Otherwise the write
     stopped somewhere.
     */
    method Append(r: Record) returns (ok: bool)
      modifies this`file, os`made
      ensures ok ==> file == After(codec, old(file), Appended(r))
      ensures ok ==> file == old(file) + (codec.encode(r) + "\n")
      ensures !ok ==> exists k: nat :: k <= |LineOf(codec, r)| && file == After(codec, old(file), Torn(r, k))
      ensures old(os.made) < os.made && (ok <==> os.Quiet(old(os.made), os.made))
    {
      var line := LineOf(codec, r);
      var k := 0;
      while k < |line|
        invariant 0 <= k <= |line| && file == old(file) + line[..k]
        invariant old(os.made) <= os.made && os.Quiet(old(os.made), os.made)
      {
        var written := os.Try();
        if !written {
          assert file == After(codec, old(file), Torn(r, k));
          return false;
        }
        assert line[..k + 1] == line[..k] + [line[k]];
        file := file + [line[k]];
        k := k + 1;
      }
      assert line[..|line|] == line;
      ok := os.Try();
      assert !ok ==> file == After(codec, old(file), Torn(r, k));
    }

    /** Loads every readable record and skips the other lines; None when the file cannot be read. */
    method Load() returns (out: Option<seq<Record>>)
      modifies os`made
      ensures out.Some? ==> out.value == Loaded(codec, Lines(file))
      ensures old(os.made) < os.made && (out.Some? <==> os.Quiet(old(os.made), os.made))
    {
      var read := os.Try();
      if !read {
        return None;
      }
      var lines := Lines(file);
      var records := [];
      var i := 0;
      while i < |lines|
        invariant 0 <= i <= |lines| && records == Loaded(codec, lines[..i])
      {
        assert lines[..i + 1][..i] == lines[..i];
        if !IsBlank(lines[i]) {
          match codec.decode(lines[i])
          case Some(r) => records := records + [r];
          case None =>
        }
        i := i + 1;
      }
      assert lines[..|lines|] == lines;
      out := Some(records);
    }

    /** The records that stay, and the text of the file that holds just them. */
    method Retain(records: seq<Record>, acked: set<string>) returns (remaining: seq<Record>, buffer: string)
      ensures remaining == Unacknowledged(records, acked) && buffer == Image(codec, remaining)
    {
      remaining, buffer := [], "";
      var i := 0;
      while i < |records|
        invariant 0 <= i <= |records| && remaining == Unacknowledged(records[..i], acked)
        invariant buffer == Image(codec, remaining)
      {
        assert records[..i + 1][..i] == records[..i];
        if records[i].id !in acked {
          assert (remaining + [records[i]])[..|remaining|] == remaining;
          remaining := remaining + [records[i]];
          buffer := buffer + LineOf(codec, records[i]);
        }
        i := i + 1;
      }
      assert records[..|records|] == records;
    }

    /** Writes the temporary file; false when the write stopped somewhere. */
    method WriteTemporary(buffer: string) returns (ok: bool)
      modifies this`temporary, os`made
      ensures ok ==> temporary == buffer
      ensures old(os.made) <= os.made && (ok <==> os.Quiet(old(os.made), os.made))
    {
      temporary := "";
      var k := 0;
      while k < |buffer|
        invariant 0 <= k <= |buffer| && temporary == buffer[..k]
        invariant old(os.made) <= os.made && os.Quiet(old(os.made), os.made)
      {
        var written := os.Try();
        if !written {
          return false;
        }
        assert buffer[..k + 1] == buffer[..k] + [buffer[k]];
        temporary := temporary + [buffer[k]];
        k := k + 1;
      }
      assert buffer[..|buffer|] == buffer;
      ok := true;
    }

    /**
     Rewrites the file without the acknowledged records, through a temporary file and a rename; tells how
     many are left, unless a call fails.
     */
    method RemoveAcknowledged(acked: set<string>) returns (left: Option<nat>)
      modifies this`file, this`temporary, os`made
      ensures left.Some? ==> file == After(codec, old(file), Compacted(acked))
      ensures left.Some? ==> exists after ::
                && LeftOf(Loaded(codec, Lines(old(file))), acked, after)
                && left.value == |after| && file == Image(codec, after)
      ensures left.None? ==> file == After(codec, old(file), NotCompacted)
      ensures left.Some? <==> os.Quiet(old(os.made), os.made)
    {
      hide KeptAt, Unacknowledged, Loaded, Lines;
      var records := Load();
      if records.None? {
        return None;
      }
      var remaining, buffer := Retain(records.value, acked);
      var ok := WriteTemporary(buffer);
      if !ok {
        return None;
      }
      var renamed := os.Try();
      if !renamed {
        return None;
      }
      ghost var _ := UnacknowledgedIsLeft(records.value, acked);
      file := temporary;
      left := Some(|remaining|);
    }
  }

  // ------------------------------------------------------------ the queue it stands for

  /** What follows the last complete line: nothing, a whole record lacking its line end, or junk. */
  datatype Tail = Clean | Pending(r: Record) | Damaged

  datatype Queue = Queue(records: seq<Record>, tail: Tail)

  function Content(q: Queue): seq<Record> {
    q.records + (if q.tail.Pending? then [q.tail.r] else [])
  }

  /** A complete line written: it counts only when it did not run into an unfinished one. */
  function Extended(q: Queue, r: Record): Queue {
    if q.tail.Clean? then Queue(q.records + [r], Clean) else Queue(q.records, Clean)
  }

  /** How an operation changes the queue, without reference to any bytes but the length written. */
  function Absorbed(codec: Codec, q: Queue, op: Op): Queue {
    match op
    case Appended(r) => Extended(q, r)
    case Torn(r, k) =>
      var n := |codec.encode(r)|;
      if k == 0 || k > n + 1 then q
      else if k == n + 1 then Extended(q, r)
      else if k == n && q.tail.Clean? then Queue(q.records, Pending(r))
      else Queue(q.records, Damaged)
    case Compacted(acked) => Queue(Unacknowledged(Content(q), acked), Clean)
    case NotCompacted => q
  }

  function FileAfter(codec: Codec, ops: seq<Op>): string {
    if ops == [] then "" else After(codec, FileAfter(codec, ops[..|ops| - 1]), ops[|ops| - 1])
  }

  function QueueAfter(codec: Codec, ops: seq<Op>): Queue {
    if ops == [] then Queue([], Clean) else Absorbed(codec, QueueAfter(codec, ops[..|ops| - 1]), ops[|ops| - 1])
  }

  /** `tail` is text that can stand after the last line end when the queue is in state `t`. */
  ghost predicate TailText(codec: Codec, tail: string, t: Tail) {
    match t
    case Clean => tail == ""
    case Pending(r) => tail == codec.encode(r)
    case Damaged =>
      tail != "" && codec.decode(tail) == None && exists count: nat :: count >= 1 && Pieces(codec, tail, count)
  }

  /** The finished lines of the file load as the records, and the unfinished one is the tail. */
  ghost predicate Represents(codec: Codec, file: string, q: Queue) {
    Loaded(codec, Read(file).lines) == q.records && TailText(codec, Read(file).current, q.tail)
  }

  // ------------------------------------------------------------ lines

  lemma {:induction false} ReadOn(at: Reading, a: string, b: string)
    ensures ReadFrom(at, a + b) == ReadFrom(ReadFrom(at, a), b)
  {
    if b == "" {
      assert a + b == a;
    } else {
      ReadOn(at, a, b[..|b| - 1]);
      assert (a + b)[..|a + b| - 1] == a + b[..|b| - 1];
    }
  }

  lemma {:induction false} ReadWithinLine(at: Reading, text: string)
    requires '\n' !in text
    ensures ReadFrom(at, text) == Reading(at.lines, at.current + text)
  {
    if text == "" {
      assert at.current + text == at.current;
    } else {
      var init := text[..|text| - 1];
      ReadWithinLine(at, init);
      assert at.current + text == at.current + init + [text[|text| - 1]];
    }
  }

  lemma ReadLine(at: Reading, line: string)
    requires '\n' !in line
    ensures ReadFrom(at, line + "\n") == Reading(at.lines + [WithoutCr(at.current + line)], "")
  {
    ReadWithinLine(at, line);
    assert (line + "\n")[..|line|] == line;
  }

  lemma LoadedMore(codec: Codec, lines: seq<string>, line: string)
    ensures Loaded(codec, lines + [line]) == Loaded(codec, lines) + Parsed(codec, line)
  {
    assert (lines + [line])[..|lines|] == lines;
  }

  lemma NonEmpty(codec: Codec, r: Record)
    requires Sound(codec)
    ensures codec.encode(r) != "" && '\n' !in codec.encode(r) && '\r' !in codec.encode(r)
  {
    assert !IsBlank(codec.encode(r));
  }

  /** A record run into an unfinished line does not decode. */
  lemma GluedIsJunk(codec: Codec, tail: string, t: Tail, r: Record, k: nat)
    requires Sound(codec) && TailText(codec, tail, t) && !t.Clean? && Cut(codec, r, k)
    ensures codec.decode(tail + codec.encode(r)[..k]) == None
    ensures TailText(codec, tail + codec.encode(r)[..k], Damaged)
  {
    var count: nat;
    if t.Pending? {
      NonEmpty(codec, t.r);
      OnePiece(codec, t.r, |tail|);
      assert codec.encode(t.r)[..|tail|] == tail;
      count := 1;
    } else {
      count :| count >= 1 && Pieces(codec, tail, count);
    }
    var text := tail + codec.encode(r)[..k];
    assert Pieces(codec, tail, count + 1 - 1);
    assert Pieces(codec, text, count + 1);
  }

  lemma OnePiece(codec: Codec, r: Record, k: nat)
    requires Cut(codec, r, k)
    ensures Pieces(codec, codec.encode(r)[..k], 1)
  {
    assert Pieces(codec, "", 0);
    assert codec.encode(r)[..k] == "" + codec.encode(r)[..k];
  }

  // ------------------------------------------------------------ refinement

  lemma LoadsContent(codec: Codec, file: string, q: Queue)
    requires Sound(codec) && Represents(codec, file, q)
    ensures Loaded(codec, Lines(file)) == Content(q)
  {
    var at := Read(file);
    if at.current == "" {
      if q.tail.Pending? { NonEmpty(codec, q.tail.r); }
      assert at.lines + [] == at.lines;
    } else {
      LoadedMore(codec, at.lines, at.current);
    }
  }

  /** What a finished line loads as: its record, unless it was glued to an unfinished one. */
  lemma FinishedLine(codec: Codec, tail: string, t: Tail, r: Record)
    requires Sound(codec) && TailText(codec, tail, t)
    ensures Parsed(codec, WithoutCr(tail + codec.encode(r))) == if t.Clean? then [r] else []
  {
    NonEmpty(codec, r);
    var line, encoded := tail + codec.encode(r), codec.encode(r);
    assert line[|line| - 1] == encoded[|encoded| - 1] && encoded[|encoded| - 1] in encoded;
    if t.Clean? {
      assert line == encoded;
    } else {
      assert encoded[..|encoded|] == encoded;
      GluedIsJunk(codec, tail, t, r, |encoded|);
    }
  }

  lemma CompleteLine(codec: Codec, file: string, q: Queue, r: Record)
    requires Sound(codec) && Represents(codec, file, q)
    ensures Represents(codec, file + LineOf(codec, r), Extended(q, r))
  {
    var at := Read(file);
    NonEmpty(codec, r);
    ReadOn(Reading([], ""), file, LineOf(codec, r));
    ReadLine(at, codec.encode(r));
    FinishedLine(codec, at.current, q.tail, r);
    LoadedMore(codec, at.lines, WithoutCr(at.current + codec.encode(r)));
  }

  lemma {:induction false} ImageLoads(codec: Codec, records: seq<Record>)
    requires Sound(codec)
    ensures Represents(codec, Image(codec, records), Queue(records, Clean))
  {
    if records != [] {
      var init, last := records[..|records| - 1], records[|records| - 1];
      ImageLoads(codec, init);
      CompleteLine(codec, Image(codec, init), Queue(init, Clean), last);
    }
  }

  /** What a piece of a record makes of the text after the last line end. */
  lemma CutTail(codec: Codec, tail: string, t: Tail, r: Record, k: nat)
    requires Sound(codec) && TailText(codec, tail, t) && Cut(codec, r, k)
    ensures TailText(codec, tail + codec.encode(r)[..k],
      if k == |codec.encode(r)| && t.Clean? then Pending(r) else Damaged)
  {
    var piece := codec.encode(r)[..k];
    if t.Clean? {
      assert tail + piece == piece;
      OnePiece(codec, r, k);
    } else {
      GluedIsJunk(codec, tail, t, r, k);
    }
  }

  lemma CutStep(codec: Codec, file: string, q: Queue, r: Record, k: nat)
    requires Sound(codec) && Represents(codec, file, q) && Cut(codec, r, k)
    ensures Represents(codec, file + codec.encode(r)[..k],
      Queue(q.records, if k == |codec.encode(r)| && q.tail.Clean? then Pending(r) else Damaged))
  {
    var at, piece := Read(file), codec.encode(r)[..k];
    NonEmpty(codec, r);
    ReadOn(Reading([], ""), file, piece);
    ReadWithinLine(at, piece);
    CutTail(codec, at.current, q.tail, r, k);
  }

  lemma TornStep(codec: Codec, file: string, q: Queue, r: Record, k: nat)
    requires Sound(codec) && Represents(codec, file, q)
    ensures Represents(codec, After(codec, file, Torn(r, k)), Absorbed(codec, q, Torn(r, k)))
  {
    var line, n := LineOf(codec, r), |codec.encode(r)|;
    if k == 0 {
      assert file + line[..0] == file;
    } else if k == n + 1 {
      assert line[..k] == line;
      CompleteLine(codec, file, q, r);
    } else if k <= n {
      assert line[..k] == codec.encode(r)[..k];
      CutStep(codec, file, q, r, k);
    }
  }

  lemma StepRepresents(codec: Codec, file: string, q: Queue, op: Op)
    requires Sound(codec) && Represents(codec, file, q)
    ensures Represents(codec, After(codec, file, op), Absorbed(codec, q, op))
  {
    match op
    case Appended(r) => CompleteLine(codec, file, q, r);
    case Torn(r, k) => TornStep(codec, file, q, r, k);
    case Compacted(acked) =>
      LoadsContent(codec, file, q);
      ImageLoads(codec, Unacknowledged(Content(q), acked));
    case NotCompacted =>
  }

  lemma {:induction false} RunRepresents(codec: Codec, ops: seq<Op>)
    requires Sound(codec)
    ensures Represents(codec, FileAfter(codec, ops), QueueAfter(codec, ops))
  {
    if ops != [] {
      var init := ops[..|ops| - 1];
      RunRepresents(codec, init);
      StepRepresents(codec, FileAfter(codec, init), QueueAfter(codec, init), ops[|ops| - 1]);
    }
  }

  /**
   The spool is a queue: after any run of appends, torn writes and compactions, whatever crashed,
   loading the file yields exactly the records the queue holds, in order.
   */
  lemma FileIsQueue(codec: Codec, ops: seq<Op>)
    requires Sound(codec)
    ensures LoadedAfter(codec, ops) == Content(QueueAfter(codec, ops))
  {
    RunRepresents(codec, ops);
    LoadsContent(codec, FileAfter(codec, ops), QueueAfter(codec, ops));
  }

  // ------------------------------------------------------------ how far damage reaches

  predicate Acknowledges(op: Op, id: string) {
    op.Compacted? && id in op.acked
  }

  lemma {:induction false} UnacknowledgedMember(records: seq<Record>, acked: set<string>, r: Record)
    ensures r in Unacknowledged(records, acked) <==> r in records && r.id !in acked
  {
    if records != [] {
      UnacknowledgedMember(records[..|records| - 1], acked, r);
      assert records == records[..|records| - 1] + [records[|records| - 1]];
    }
  }

  /** A record appended on a clean tail stays until it is acknowledged, whatever happens afterwards. */
  lemma {:induction false} CleanAppendSurvives(codec: Codec, ops: seq<Op>, i: nat)
    requires i < |ops| && ops[i].Appended? && QueueAfter(codec, ops[..i]).tail.Clean?
    requires forall j :: i < j < |ops| ==> !Acknowledges(ops[j], ops[i].r.id)
    ensures ops[i].r in QueueAfter(codec, ops).records
  {
    var n := |ops| - 1;
    var init := ops[..n];
    if i < n {
      assert init[..i] == ops[..i];
      assert forall j :: i < j < n ==> init[j] == ops[j];
      CleanAppendSurvives(codec, init, i);
      var q := QueueAfter(codec, init);
      if ops[n].Compacted? {
        UnacknowledgedMember(Content(q), ops[n].acked, ops[i].r);
      }
    }
  }

  lemma OneMore(codec: Codec, ops: seq<Op>, op: Op)
    ensures QueueAfter(codec, ops + [op]) == Absorbed(codec, QueueAfter(codec, ops), op)
    ensures FileAfter(codec, ops + [op]) == After(codec, FileAfter(codec, ops), op)
  {
    assert (ops + [op])[..|ops|] == ops;
  }

  /** The records that loading yields after a run. */
  function LoadedAfter(codec: Codec, ops: seq<Op>): seq<Record> {
    Loaded(codec, Lines(FileAfter(codec, ops)))
  }

  lemma AppendChangesContent(q: Queue, r: Record)
    ensures Content(Extended(q, r)) == Content(q) + [r] <==> q.tail.Clean?
  {
    assert |q.records| != |Content(q) + [r]|;
  }

  /** The file is empty or ends with a line end. */
  predicate EndsLine(file: string) {
    file == "" || file[|file| - 1] == '\n'
  }

  lemma CleanIffEndsLine(codec: Codec, ops: seq<Op>)
    requires Sound(codec)
    ensures QueueAfter(codec, ops).tail.Clean? <==> EndsLine(FileAfter(codec, ops))
  {
    var file, tail := FileAfter(codec, ops), QueueAfter(codec, ops).tail;
    RunRepresents(codec, ops);
    if tail.Pending? {
      NonEmpty(codec, tail.r);
    }
    assert Read(file).current == "" <==> tail.Clean?;
  }

  /**
   A successful append adds its record to what is loaded exactly when the file was empty or ended with a
   line end.
   */
  lemma AppendKeptIffClean(codec: Codec, ops: seq<Op>, r: Record)
    requires Sound(codec)
    ensures LoadedAfter(codec, ops + [Appended(r)]) == LoadedAfter(codec, ops) + [r]
            <==> EndsLine(FileAfter(codec, ops))
  {
    FileIsQueue(codec, ops);
    FileIsQueue(codec, ops + [Appended(r)]);
    OneMore(codec, ops, Appended(r));
    AppendChangesContent(QueueAfter(codec, ops), r);
    CleanIffEndsLine(codec, ops);
  }

  /** An append that reported success, and what is loaded is not one record more. */
  ghost predicate LosesAppend(codec: Codec, init: seq<Op>, op: Op) {
    op.Appended? && LoadedAfter(codec, init + [op]) != LoadedAfter(codec, init) + [op.r]
  }

  predicate LeavesFragment(codec: Codec, op: Op) {
    op.Torn? && 0 < op.k <= |codec.encode(op.r)|
  }

  ghost function LostAppends(codec: Codec, ops: seq<Op>): nat {
    if ops == [] then 0 else
      var init := ops[..|ops| - 1];
      LostAppends(codec, init) + (if LosesAppend(codec, init, ops[|ops| - 1]) then 1 else 0)
  }

  function Fragments(codec: Codec, ops: seq<Op>): nat {
    if ops == [] then 0 else
      Fragments(codec, ops[..|ops| - 1]) + (if LeavesFragment(codec, ops[|ops| - 1]) then 1 else 0)
  }

  lemma StepEndsLine(codec: Codec, file: string, op: Op)
    requires (EndsLine(file) && !LeavesFragment(codec, op)) || op.Appended? || op.Compacted?
    ensures EndsLine(After(codec, file, op))
  {
    if op.Torn? && op.k == |LineOf(codec, op.r)| {
      assert LineOf(codec, op.r)[..op.k] == LineOf(codec, op.r);
    }
    if op.Torn? && op.k == 0 {
      assert file + LineOf(codec, op.r)[..0] == file;
    }
  }

  /** Each torn write costs at most one successful append, and while its fragment is at the end, none yet. */
  lemma {:induction false} DamageIsConfined(codec: Codec, ops: seq<Op>)
    requires Sound(codec)
    ensures LostAppends(codec, ops) + (if EndsLine(FileAfter(codec, ops)) then 0 else 1) <= Fragments(codec, ops)
  {
    hide Sound, After, EndsLine, Lines, Loaded, Pieces;
    if ops == [] {
      EmptyEndsLine();
    } else {
      var init, op := ops[..|ops| - 1], ops[|ops| - 1];
      DamageIsConfined(codec, init);
      if op.Appended? {
        AppendKeptIffClean(codec, init, op.r);
      }
      if (EndsLine(FileAfter(codec, init)) && !LeavesFragment(codec, op)) || op.Appended? {
        StepEndsLine(codec, FileAfter(codec, init), op);
      }
    }
  }

  lemma EmptyEndsLine()
    ensures EndsLine("")
  {
  }

  /** A record whose append found the file at a line end is loaded until it is acknowledged. */
  lemma CleanAppendIsLoaded(codec: Codec, ops: seq<Op>, i: nat)
    requires Sound(codec) && i < |ops| && ops[i].Appended? && EndsLine(FileAfter(codec, ops[..i]))
    requires forall j :: i < j < |ops| ==> !Acknowledges(ops[j], ops[i].r.id)
    ensures ops[i].r in LoadedAfter(codec, ops)
  {
    CleanIffEndsLine(codec, ops[..i]);
    CleanAppendSurvives(codec, ops, i);
    FileIsQueue(codec, ops);
  }

  /**
   The claim that a torn write costs only the event being written fails here: the whole first
   record is on disk and is loaded, then the next successful append destroys both.
   */
  lemma TornLineTakesTheNextOne(codec: Codec, torn: Record, next: Record)
    requires Sound(codec)
    ensures var ops := [Torn(torn, |codec.encode(torn)|)];
      LoadedAfter(codec, ops) == [torn] && LoadedAfter(codec, ops + [Appended(next)]) == []
  {
    var op := Torn(torn, |codec.encode(torn)|);
    NonEmpty(codec, torn);
    assert [] + [op] == [op];
    OneMore(codec, [], op);
    OneMore(codec, [op], Appended(next));
    FileIsQueue(codec, [op]);
    FileIsQueue(codec, [op] + [Appended(next)]);
  }

  /** Compaction keeps the unacknowledged records and repairs the tail; one that fails changes nothing. */
  lemma CompactionRepairs(codec: Codec, ops: seq<Op>, acked: set<string>)
    requires Sound(codec)
    ensures QueueAfter(codec, ops + [Compacted(acked)]).tail.Clean?
    ensures LeftOf(LoadedAfter(codec, ops), acked, LoadedAfter(codec, ops + [Compacted(acked)]))
    ensures LoadedAfter(codec, ops + [NotCompacted]) == LoadedAfter(codec, ops)
  {
    hide Sound, Lines, Loaded, Pieces, Unacknowledged, KeptAt;
    FileIsQueue(codec, ops);
    FileIsQueue(codec, ops + [Compacted(acked)]);
    OneMore(codec, ops, Compacted(acked));
    OneMore(codec, ops, NotCompacted);
    var left := Unacknowledged(LoadedAfter(codec, ops), acked);
    assert LoadedAfter(codec, ops + [Compacted(acked)]) == left + [] == left;
    var kept := UnacknowledgedIsLeft(LoadedAfter(codec, ops), acked);
  }
}
