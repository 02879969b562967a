/**
  The body buffer of an SMTP session: bytes are kept in memory until they outgrow a threshold,
  then in a temporary file behind a buffered writer. The reference is one flat byte sequence.
 */
module BodyBuffer {
  import opened Text
  import opened DotStuffing

  const MAX_TOTAL_SIZE: nat := 25 * 1024 * 1024

  datatype State =
    | Memory(vec: string)
    | Disk(file: string, writer: string)  // bytes already in the file, bytes still in the writer

  /** How the disk behaves during one call: the bytes the writer passes on, or those it took before failing. */
  datatype DiskFate = Works(passedOn: nat) | Fails(taken: nat)

  datatype AppendResult = Appended | TooLarge | IoFailed

  function Skip(s: string, n: nat): string {
    if n <= |s| then s[n..] else ""
  }

  /** The two-mode buffer as a value. */
  datatype Buffer = Buffer(state: State, maxMemory: nat, bytesWritten: nat) {

    function Contents(): string {
      match state
      case Memory(vec) => vec
      case Disk(file, writer) => file + writer
    }

    /** The counter is right, the limits hold, and the mode is decided by the size alone. */
    predicate Valid() {
      && bytesWritten == |Contents()| <= MAX_TOTAL_SIZE
      && (state.Disk? <==> |Contents()| > maxMemory)
    }

    /** Writing through the buffered writer: any number of pending bytes may reach the file. */
    static function Written(file: string, pending: string, passedOn: nat): State {
      Disk(file + Take(pending, passedOn), Skip(pending, passedOn))
    }

    function Append(line: string, fate: DiskFate): (AppendResult, Buffer) {
      var content := UnstuffLine(line);
      if bytesWritten + |content| > MAX_TOTAL_SIZE then (TooLarge, this)
      else
        match state
        case Memory(vec) =>
          if |vec| + |content| > maxMemory then
            match fate
            case Works(n) => (Appended, Buffer(Written("", vec + content, n), maxMemory, bytesWritten + |content|))
            case Fails(_) => (IoFailed, this)
          else (Appended, Buffer(Memory(vec + content), maxMemory, bytesWritten + |content|))
        case Disk(file, writer) =>
          match fate
          case Works(n) => (Appended, Buffer(Written(file, writer + content, n), maxMemory, bytesWritten + |content|))
          case Fails(n) => (IoFailed, this.(state := Disk(file, writer + Take(content, n))))
    }

    function Clear(): Buffer {
      this.(state := Memory(""), bytesWritten := 0)
    }

    /** What metadata extraction reads: in disk mode the file alone, without flushing the writer. */
    function MetadataInput(): string {
      match state
      case Memory(vec) => vec
      case Disk(file, _) => file
    }

    /** Storing the body: the bytes of the destination file, and the buffer left behind. */
    function Persist(): (string, Buffer) {
      match state
      case Memory(vec) => (vec, this)
      case Disk(file, writer) => (file + writer, this.(state := Memory("")))
    }
  }

  /** The buffer as the program has it: one object, changed in place. */
  class SmartBodyBuffer {
    var state: State
    const maxMemory: nat
    var bytesWritten: nat

    function Value(): Buffer
      reads this
    {
      Buffer(state, maxMemory, bytesWritten)
    }

    constructor (maxMemory: nat)
      ensures Value() == Buffer(Memory(""), maxMemory, 0)
      ensures Value().Valid()
    {
      this.state := Memory("");
      this.maxMemory := maxMemory;
      this.bytesWritten := 0;
    }

    method Clear()
      modifies this
      ensures Value() == old(Value()).Clear()
      ensures Value().Valid() && Value().Contents() == ""
    {
      state := Memory("");
      bytesWritten := 0;
    }

    /** Un-stuffs one line and keeps it; a line that would exceed the size limit changes nothing. */
    method Append(line: string, fate: DiskFate) returns (r: AppendResult)
      requires Value().Valid()
      modifies this
      ensures (r, Value()) == old(Value()).Append(line, fate)
      ensures r == Appended ==>
                && Value().Valid()
                && Value().Contents() ==
                   old(Value().Contents()) + (if line != "" && line[0] == '.' then line[1..] else line)
      ensures r == TooLarge <==> |old(Value().Contents())| + |UnstuffLine(line)| > 26_214_400
      ensures r == TooLarge ==> Value() == old(Value())
      ensures r == IoFailed ==> fate.Fails?
    {
      var content := if line != "" && line[0] == '.' then line[1..] else line;
      if bytesWritten + |content| > MAX_TOTAL_SIZE {
        return TooLarge;
      }
      AppendKeepsContents(Value(), line, fate);
      match state {
        case Memory(vec) =>
          if |vec| + |content| > maxMemory {
            match fate {
              case Works(n) =>
                state := Buffer.Written("", vec + content, n);
              case Fails(_) =>
                return IoFailed;
            }
          } else {
            state := Memory(vec + content);
          }
        case Disk(file, writer) =>
          match fate {
            case Works(n) =>
              state := Buffer.Written(file, writer + content, n);
            case Fails(n) =>
              state := Disk(file, writer + Take(content, n));
              return IoFailed;
          }
      }
      bytesWritten := bytesWritten + |content|;
      return Appended;
    }

    /** Parses what is in memory or in the file; bytes still in the writer are not seen. */
    method ExtractFullMetadata<M>(envelopeSender: string, parse: (string, string) -> M, diskOk: bool)
      returns (metadata: Option<M>)
      ensures metadata.Some? <==> diskOk || state.Memory?
      ensures metadata.Some? ==> metadata.value == parse(Value().MetadataInput(), envelopeSender)
    {
      match state {
        case Memory(vec) =>
          return Some(parse(vec, envelopeSender));
        case Disk(file, _) =>
          if !diskOk {
            return None;
          }
          return Some(parse(file, envelopeSender));
      }
    }

    /** Moves the body to its final path and returns the bytes now stored there. */
    method PersistToPath(diskOk: bool) returns (stored: Option<string>)
      modifies this
      ensures stored.Some? <==> diskOk
      ensures diskOk ==> (stored.value, Value()) == old(Value()).Persist()
      ensures diskOk ==> stored.value == old(Value().Contents())
      ensures !diskOk ==> Value() == old(Value()).(state := Memory(""))
    {
      var oldState := state;
      state := Memory("");
      if !diskOk {
        return None;
      }
      match oldState {
        case Memory(vec) =>
          state := Memory(vec);
          return Some(vec);
        case Disk(file, writer) =>
          return Some(file + writer);
      }
    }

    /** Returns the whole body, flushing the writer first in disk mode. */
    method GetContentBytes(diskOk: bool) returns (bytes: Option<string>)
      modifies this
      ensures bytes.Some? <==> diskOk || state.Memory?
      ensures bytes.Some? ==> bytes.value == old(Value().Contents())
      ensures Value().Contents() == old(Value().Contents()) && bytesWritten == old(bytesWritten)
      ensures state.Disk? <==> old(state.Disk?)
      ensures state.Memory? ==> state == old(state)
    {
      match state {
        case Memory(vec) =>
          return Some(vec);
        case Disk(file, writer) =>
          if !diskOk {
            return None;
          }
          state := Disk(file + writer, "");
          return Some(file + writer);
      }
    }
  }

  /** One append keeps the invariant and extends the contents by the un-stuffed line. */
  lemma AppendKeepsContents(b: Buffer, line: string, fate: DiskFate)
    requires b.Valid()
    ensures var (r, b') := b.Append(line, fate);
            && (r == Appended ==> b'.Valid() && b'.Contents() == b.Contents() + UnstuffLine(line))
            && (r == TooLarge ==> b' == b)
  {
    var content := UnstuffLine(line);
    var (r, b') := b.Append(line, fate);
    if r == Appended && b'.state.Disk? {
      match b.state
      case Memory(vec) =>
        WrittenConcat("", vec + content, fate.passedOn);
      case Disk(file, writer) =>
        WrittenConcat(file, writer + content, fate.passedOn);
        assert file + (writer + content) == file + writer + content;
    }
  }

  /** How much of a growing body metadata extraction can read after one more line. */
  function Readable(before: string, readable: nat, after: string, maxMemory: nat, fate: DiskFate): nat {
    if |after| <= maxMemory then |after|
    else
      match fate
      case Works(n) =>
        var inFile := if |before| <= maxMemory then 0 else readable;
        if inFile + n <= |after| then inFile + n else |after|
      case Fails(_) => readable
  }

  /** The readable part of the buffer is a prefix of its contents, of the length given by the lines and the disk. */
  lemma AppendReadable(b: Buffer, line: string, fate: DiskFate)
    requires b.Valid()
    ensures b.MetadataInput() == Take(b.Contents(), |b.MetadataInput()|)
    ensures var (r, b') := b.Append(line, fate);
            r == Appended ==>
              |b'.MetadataInput()| == Readable(b.Contents(), |b.MetadataInput()|, b'.Contents(), b.maxMemory, fate)
  {
    AppendKeepsContents(b, line, fate);
  }

  lemma WrittenConcat(file: string, pending: string, n: nat)
    ensures var s := Buffer.Written(file, pending, n); s.file + s.writer == file + pending
  {
    if n <= |pending| {
      assert pending == pending[..n] + pending[n..];
    }
  }

  // ---------- whole runs ----------

  datatype Op = AppendOp(line: string, passedOn: nat) | ClearOp

  /** The two-mode buffer after a sequence of calls on a working disk. */
  function RunBuffer(b: Buffer, ops: seq<Op>): Buffer
    decreases |ops|
  {
    if ops == [] then b
    else
      var b' := match ops[0]
        case AppendOp(line, n) => b.Append(line, Works(n)).1
        case ClearOp => b.Clear();
      RunBuffer(b', ops[1..])
  }

  /** The reference: one flat sequence with a size limit. */
  function RunFlat(flat: string, ops: seq<Op>): string
    decreases |ops|
  {
    if ops == [] then flat
    else
      var flat' := match ops[0]
        case AppendOp(line, _) =>
          if |flat| + |UnstuffLine(line)| > 26_214_400 then flat else flat + UnstuffLine(line)
        case ClearOp => "";
      RunFlat(flat', ops[1..])
  }

  /** For every sequence of appends and clears the buffer is the flat sequence, in the mode its size dictates. */
  lemma {:induction false} BufferRefinesFlat(b: Buffer, ops: seq<Op>)
    requires b.Valid()
    ensures var b' := RunBuffer(b, ops);
            b'.Valid() && b'.Contents() == RunFlat(b.Contents(), ops) && b'.maxMemory == b.maxMemory
    decreases |ops|
  {
    if ops == [] {
    } else {
      match ops[0] {
        case AppendOp(line, n) =>
          AppendKeepsContents(b, line, Works(n));
          BufferRefinesFlat(b.Append(line, Works(n)).1, ops[1..]);
        case ClearOp =>
          BufferRefinesFlat(b.Clear(), ops[1..]);
      }
    }
  }

  /**
    What the readers see after any run: the stored file is the flat sequence; metadata is read
    from a prefix of it, which is all of it unless bytes are still in the writer; and readers
    that come after storing see the stored bytes exactly when the body never left memory.
   */
  lemma ReadersAfterRun(maxMemory: nat, ops: seq<Op>)
    ensures var b := RunBuffer(Buffer(Memory(""), maxMemory, 0), ops);
            var flat := RunFlat("", ops);
            var (stored, left) := b.Persist();
            && stored == flat
            && b.MetadataInput() <= flat
            && (|flat| <= maxMemory ==> b.MetadataInput() == flat)
            && (b.MetadataInput() == flat <==> (b.state.Disk? ==> b.state.writer == ""))
            && (left.Contents() == stored <==> |flat| <= maxMemory)
            && (|flat| > maxMemory ==> left.Contents() == "")
            && left.bytesWritten == |flat|
  {
    var b := Buffer(Memory(""), maxMemory, 0);
    BufferRefinesFlat(b, ops);
    var b' := RunBuffer(b, ops);
    if b'.state.Disk? && b'.state.file == b'.state.file + b'.state.writer {
      assert |b'.state.writer| == 0;
    }
  }
}
