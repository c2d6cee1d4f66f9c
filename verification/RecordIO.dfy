/** Record-IO: records prefixed with their length (3rdparty/stout/recordio.hpp). Bytes are chars. */
module RecordIO {
  import opened Wrappers
  import opened Numbers

  datatype Mode = Header | Record | Failed

  /** The decoder, with all records it has completed so far. */
  datatype State = State(mode: Mode, buffer: string, length: Option<nat>, records: seq<string>)

  const INITIAL: State := State(Header, [], None, [])

  /** `Encoder::encode` of a serialized record. */
  function Encode(record: string): string {
    Decimal(|record|) + "\n" + record
  }

  function EncodeAll(records: seq<string>): string {
    if records == [] then [] else EncodeAll(records[..|records| - 1]) + Encode(records[|records| - 1])
  }

  /** What the CHECKs in `decode` demand: inside a record its length is known and not yet reached. */
  predicate Valid(s: State) {
    s.mode == Record ==> s.length.Some? && |s.buffer| < s.length.value
  }

  /** One character. A failed decoder reads nothing more. */
  function Feed(s: State, c: char): (s': State)
    requires Valid(s)
    ensures Valid(s')
  {
    match s.mode
    case Header =>
      if c != '\n' then s.(buffer := s.buffer + [c])
      else (
        match Numify(s.buffer, SIZE_MAX)
        case None => s.(mode := Failed)
        case Some(n) =>
          if n == 0 then State(Header, [], Some(n), s.records + [[]]) else State(Record, [], Some(n), s.records))
    case Record =>
      var b := s.buffer + [c];
      if |b| == s.length.value then State(Header, [], s.length, s.records + [b]) else s.(buffer := b)
    case Failed => s
  }

  function FeedAll(s: State, data: string): (s': State)
    requires Valid(s)
    ensures Valid(s') && s.records <= s'.records
  {
    if data == [] then s else Feed(FeedAll(s, data[..|data| - 1]), data[|data| - 1])
  }

  /** What `Decoder::decode` answers to a chunk: the records it completes, or an error if the decoder has failed. */
  function Answer(s: State, data: string): Try<seq<string>>
    requires Valid(s)
  {
    var s' := FeedAll(s, data);
    if s'.mode == Failed then Error else Ok(s'.records[|s.records|..])
  }

  function Answers(s: State, chunks: seq<string>): seq<Try<seq<string>>>
    requires Valid(s)
    decreases |chunks|
  {
    if chunks == [] then [] else [Answer(s, chunks[0])] + Answers(FeedAll(s, chunks[0]), chunks[1..])
  }

  function FeedChunks(s: State, chunks: seq<string>): (s': State)
    requires Valid(s)
    ensures Valid(s')
    decreases |chunks|
  {
    if chunks == [] then s else FeedChunks(FeedAll(s, chunks[0]), chunks[1..])
  }

  function Concat(chunks: seq<string>): string {
    if chunks == [] then [] else chunks[0] + Concat(chunks[1..])
  }

  predicate AllGood(answers: seq<Try<seq<string>>>) {
    forall i :: 0 <= i < |answers| ==> answers[i].Ok?
  }

  function Records(answers: seq<Try<seq<string>>>): seq<string>
    requires AllGood(answers)
  {
    if answers == [] then [] else answers[0].value + Records(answers[1..])
  }

  // ------------------------------------------------------------ chunks

  lemma {:induction false} FeedConcat(s: State, a: string, b: string)
    requires Valid(s)
    ensures FeedAll(FeedAll(s, a), b) == FeedAll(s, a + b)
  {
    if b == [] {
      assert a + b == a;
    } else {
      var front := b[..|b| - 1];
      FeedConcat(s, a, front);
      assert (a + b)[..|a + b| - 1] == a + front && (a + b)[|a + b| - 1] == b[|b| - 1];
    }
  }

  lemma {:induction false} FailedStays(s: State, data: string)
    requires s.mode == Failed
    ensures FeedAll(s, data) == s
  {
    if data != [] { FailedStays(s, data[..|data| - 1]); }
  }

  /** However the data is divided, the decoder ends in the same state. */
  lemma {:induction false} ChunkingIsIrrelevant(s: State, chunks: seq<string>)
    requires Valid(s)
    ensures FeedChunks(s, chunks) == FeedAll(s, Concat(chunks))
    decreases |chunks|
  {
    if chunks != [] {
      ChunkingIsIrrelevant(FeedAll(s, chunks[0]), chunks[1..]);
      FeedConcat(s, chunks[0], Concat(chunks[1..]));
    }
  }

  /** Unless the decoder fails in the end, no answer is an error and together they hold all the records. */
  lemma {:induction false} AnswersHoldRecords(s: State, chunks: seq<string>)
    requires Valid(s) && FeedChunks(s, chunks).mode != Failed
    ensures |Answers(s, chunks)| == |chunks| && AllGood(Answers(s, chunks))
    ensures s.records + Records(Answers(s, chunks)) == FeedChunks(s, chunks).records
    decreases |chunks|
  {
    if chunks != [] {
      var s1, rest := FeedAll(s, chunks[0]), chunks[1..];
      if s1.mode == Failed {
        ChunkingIsIrrelevant(s1, rest);
        FailedStays(s1, Concat(rest));
        assert false;
      }
      AnswersHoldRecords(s1, rest);
      var answers, later := Answers(s, chunks), Answers(s1, rest);
      assert answers[1..] == later;
      JoinTail(s.records, s1.records, Records(later));
    }
  }

  lemma {:induction false} JoinTail(a: seq<string>, b: seq<string>, c: seq<string>)
    requires a <= b
    ensures a + (b[|a|..] + c) == b + c
  {
  }

  // ------------------------------------------------------------ frames

  datatype Frame = Frame(header: string, body: string)

  /** A header line that `numify` reads as the length of the body. */
  predicate FrameOk(f: Frame) {
    '\n' !in f.header && Numify(f.header, SIZE_MAX) == Some(|f.body|)
  }

  predicate FramesOk(fs: seq<Frame>) {
    forall i :: 0 <= i < |fs| ==> FrameOk(fs[i])
  }

  function Text(f: Frame): string {
    f.header + "\n" + f.body
  }

  function Wire(fs: seq<Frame>): string {
    if fs == [] then [] else Wire(fs[..|fs| - 1]) + Text(fs[|fs| - 1])
  }

  function Bodies(fs: seq<Frame>): (bodies: seq<string>)
    ensures |bodies| == |fs| && forall i :: 0 <= i < |fs| ==> bodies[i] == fs[i].body
  {
    if fs == [] then [] else Bodies(fs[..|fs| - 1]) + [fs[|fs| - 1].body]
  }

  lemma {:induction false} FeedHeader(s: State, header: string)
    requires s.mode == Header && '\n' !in header
    ensures FeedAll(s, header) == s.(buffer := s.buffer + header)
  {
    if header == [] {
      assert s.buffer + header == s.buffer;
    } else {
      var front, c := header[..|header| - 1], header[|header| - 1];
      FeedHeader(s, front);
      assert s.buffer + front + [c] == s.buffer + header;
    }
  }

  lemma {:induction false} FeedBody(s: State, body: string)
    requires s.mode == Record && Valid(s) && |s.buffer| + |body| < s.length.value
    ensures FeedAll(s, body) == s.(buffer := s.buffer + body)
  {
    if body == [] {
      assert s.buffer + body == s.buffer;
    } else {
      var front, c := body[..|body| - 1], body[|body| - 1];
      FeedBody(s, front);
      assert s.buffer + front + [c] == s.buffer + body;
    }
  }

  lemma {:induction false} FeedLine(s: State, header: string)
    requires s.mode == Header && s.buffer == [] && '\n' !in header
    ensures FeedAll(s, header + "\n") == Feed(s.(buffer := header), '\n')
  {
    FeedHeader(s, header);
    var line := header + "\n";
    assert line[..|line| - 1] == header && s.buffer + header == header;
  }

  lemma {:induction false} FeedWholeBody(s: State, body: string)
    requires s.mode == Record && s.buffer == [] && s.length == Some(|body|) && body != []
    ensures FeedAll(s, body) == State(Header, [], s.length, s.records + [body])
  {
    var front, c := body[..|body| - 1], body[|body| - 1];
    FeedBody(s, front);
    assert s.buffer + front == front && front + [c] == body;
  }

  /** An idle decoder reads a frame as its body, and is idle again. */
  lemma {:induction false} FeedFrame(s: State, f: Frame)
    requires s.mode == Header && s.buffer == [] && FrameOk(f)
    ensures FeedAll(s, Text(f)) == State(Header, [], Some(|f.body|), s.records + [f.body])
  {
    FeedLine(s, f.header);
    FeedConcat(s, f.header + "\n", f.body);
    if f.body != [] {
      FeedWholeBody(State(Record, [], Some(|f.body|), s.records), f.body);
    }
  }

  /** Every sequence of frames is read as its bodies. */
  lemma {:induction false} FeedWire(fs: seq<Frame>)
    requires FramesOk(fs)
    ensures var s := FeedAll(INITIAL, Wire(fs)); s.mode == Header && s.buffer == [] && s.records == Bodies(fs)
  {
    if fs != [] {
      var front, f := fs[..|fs| - 1], fs[|fs| - 1];
      FeedWire(front);
      FeedFrame(FeedAll(INITIAL, Wire(front)), f);
      FeedConcat(INITIAL, Wire(front), Text(f));
    }
  }

  /** The data is complete frames, then the part of the next frame the decoder is in. */
  ghost predicate ReadAs(data: string, s: State, fs: seq<Frame>, header: string) {
    && FramesOk(fs) && '\n' !in header && s.records == Bodies(fs)
    && match s.mode
       case Header => s.buffer == header && data == Wire(fs) + header
       case Record => s.length.Some? && Numify(header, SIZE_MAX) == s.length && data == Wire(fs) + Text(Frame(header, s.buffer))
       case Failed => Numify(header, SIZE_MAX).None? && Wire(fs) + Text(Frame(header, [])) <= data
  }

  lemma {:induction false} ReadWhole(data: string, s: State, fs: seq<Frame>, f: Frame)
    requires FramesOk(fs) && FrameOk(f) && data == Wire(fs) + Text(f)
    requires s.mode == Header && s.buffer == [] && s.records == Bodies(fs) + [f.body]
    ensures ReadAs(data, s, fs + [f], [])
  {
    var all := fs + [f];
    assert all[..|fs|] == fs;
    assert Wire(all) + [] == data;
  }

  lemma {:induction false} TextAppend(w: string, header: string, body: string, c: char)
    ensures w + Text(Frame(header, body)) + [c] == w + Text(Frame(header, body + [c]))
    ensures w + header + ['\n'] == w + Text(Frame(header, []))
    ensures w + header + [c] == w + (header + [c])
  {
  }

  lemma {:induction false} ReadHeaderChar(front: string, c: char, data: string, s: State, fs: seq<Frame>, header: string)
    requires s.mode == Header && ReadAs(front, s, fs, header) && data == front + [c] && c != '\n'
    ensures ReadAs(data, Feed(s, c), fs, header + [c])
  {
    TextAppend(Wire(fs), header, [], c);
  }

  lemma {:induction false} ReadLine(front: string, c: char, data: string, s: State, fs: seq<Frame>, header: string)
    requires s.mode == Header && ReadAs(front, s, fs, header) && data == front + [c] && c == '\n'
    ensures Numify(header, SIZE_MAX) != Some(0) ==> ReadAs(data, Feed(s, c), fs, header)
    ensures Numify(header, SIZE_MAX) == Some(0) ==> ReadAs(data, Feed(s, c), fs + [Frame(header, [])], [])
  {
    TextAppend(Wire(fs), header, [], c);
    if Numify(header, SIZE_MAX) == Some(0) { ReadWhole(data, Feed(s, c), fs, Frame(header, [])); }
  }

  lemma {:induction false} ReadBodyChar(front: string, c: char, data: string, s: State, fs: seq<Frame>, header: string)
    requires s.mode == Record && Valid(s) && ReadAs(front, s, fs, header) && data == front + [c]
    ensures Feed(s, c).mode == Record ==> ReadAs(data, Feed(s, c), fs, header)
    ensures Feed(s, c).mode == Header ==> ReadAs(data, Feed(s, c), fs + [Frame(header, s.buffer + [c])], [])
  {
    TextAppend(Wire(fs), header, s.buffer, c);
    if Feed(s, c).mode == Header { ReadWhole(data, Feed(s, c), fs, Frame(header, s.buffer + [c])); }
  }

  lemma {:induction false} ReadStep(front: string, c: char, data: string, s: State, fs: seq<Frame>, header: string)
    returns (fs': seq<Frame>, header': string)
    requires Valid(s) && ReadAs(front, s, fs, header) && data == front + [c]
    ensures ReadAs(data, Feed(s, c), fs', header')
  {
    fs', header' := fs, header;
    match s.mode
    case Header =>
      if c != '\n' {
        ReadHeaderChar(front, c, data, s, fs, header);
        header' := header + [c];
      } else {
        ReadLine(front, c, data, s, fs, header);
        if Numify(header, SIZE_MAX) == Some(0) { fs', header' := fs + [Frame(header, [])], []; }
      }
    case Record =>
      ReadBodyChar(front, c, data, s, fs, header);
      if Feed(s, c).mode == Header { fs', header' := fs + [Frame(header, s.buffer + [c])], []; }
    case Failed =>
  }

  lemma {:induction false} ReadNothing(data: string)
    requires data == []
    ensures ReadAs(data, INITIAL, [], [])
  {
  }

  /** Whatever the data, the records are the bodies of the frames it begins with. */
  lemma {:induction false} DecodeMeaning(data: string) returns (fs: seq<Frame>, header: string)
    ensures ReadAs(data, FeedAll(INITIAL, data), fs, header)
  {
    if data == [] {
      ReadNothing(data);
      fs, header := [], [];
    } else {
      var n := |data| - 1;
      fs, header := DecodeMeaning(data[..n]);
      assert data == data[..n] + [data[n]];
      fs, header := ReadStep(data[..n], data[n], data, FeedAll(INITIAL, data[..n]), fs, header);
    }
  }

  ghost predicate BadHeader(data: string, fs: seq<Frame>, header: string) {
    FramesOk(fs) && '\n' !in header && Numify(header, SIZE_MAX).None? && Wire(fs) + Text(Frame(header, [])) <= data
  }

  lemma {:induction false} BadHeaderFails(data: string, fs: seq<Frame>, header: string)
    requires BadHeader(data, fs, header)
    ensures FeedAll(INITIAL, data).mode == Failed
  {
    var line := header + "\n";
    var bad := Wire(fs) + line;
    assert Text(Frame(header, [])) == line;
    BadLine(fs, header);
    var rest := data[|bad|..];
    FeedConcat(INITIAL, bad, rest);
    assert data == bad + rest;
    FailedStays(FeedAll(INITIAL, bad), rest);
  }

  lemma {:induction false} BadLine(fs: seq<Frame>, header: string)
    requires FramesOk(fs) && '\n' !in header && Numify(header, SIZE_MAX).None?
    ensures FeedAll(INITIAL, Wire(fs) + (header + "\n")).mode == Failed
  {
    FeedWire(fs);
    FeedLine(FeedAll(INITIAL, Wire(fs)), header);
    FeedConcat(INITIAL, Wire(fs), header + "\n");
  }

  /** Decoding fails exactly when some frames are followed by a line that is not a length. */
  lemma {:induction false} FailsExactly(data: string)
    ensures FeedAll(INITIAL, data).mode == Failed <==> exists fs, header :: BadHeader(data, fs, header)
  {
    if FeedAll(INITIAL, data).mode == Failed {
      var fs, header := DecodeMeaning(data);
      assert BadHeader(data, fs, header);
    }
    forall fs, header | BadHeader(data, fs, header) ensures FeedAll(INITIAL, data).mode == Failed {
      BadHeaderFails(data, fs, header);
    }
  }

  // ------------------------------------------------------------ the round trip

  function FrameOf(record: string): Frame { Frame(Decimal(|record|), record) }

  lemma {:induction false} FrameOfOk(record: string)
    requires |record| <= SIZE_MAX
    ensures FrameOk(FrameOf(record)) && Text(FrameOf(record)) == Encode(record)
  {
    NumifyDecimal(|record|, SIZE_MAX);
    assert !IsDigit('\n');
  }

  function FramesOf(records: seq<string>): (fs: seq<Frame>)
    ensures |fs| == |records| && forall i :: 0 <= i < |fs| ==> fs[i] == FrameOf(records[i])
  {
    if records == [] then [] else FramesOf(records[..|records| - 1]) + [FrameOf(records[|records| - 1])]
  }

  lemma {:induction false} EncodingsAreFrames(records: seq<string>)
    requires forall i :: 0 <= i < |records| ==> |records[i]| <= SIZE_MAX
    ensures Wire(FramesOf(records)) == EncodeAll(records)
  {
    if records != [] {
      var n := |records| - 1;
      EncodingsAreFrames(records[..n]);
      FrameOfOk(records[n]);
      assert FramesOf(records)[..n] == FramesOf(records[..n]);
    }
  }

  /**
   However the encodings of any records are divided into chunks, the answers are all good, their records are the given
   ones in order, and the decoder ends at a header with an empty buffer. (A size always fits its type.)
   */
  lemma {:induction false} RoundTrip(records: seq<string>, chunks: seq<string>)
    requires forall i :: 0 <= i < |records| ==> |records[i]| <= SIZE_MAX
    requires Concat(chunks) == EncodeAll(records)
    ensures FeedChunks(INITIAL, chunks).mode == Header && FeedChunks(INITIAL, chunks).buffer == []
    ensures |Answers(INITIAL, chunks)| == |chunks| && AllGood(Answers(INITIAL, chunks))
    ensures Records(Answers(INITIAL, chunks)) == records
  {
    var fs := FramesOf(records);
    forall i | 0 <= i < |fs| ensures FrameOk(fs[i]) { FrameOfOk(records[i]); }
    EncodingsAreFrames(records);
    assert Bodies(fs) == records;
    FeedWire(fs);
    ChunkingIsIrrelevant(INITIAL, chunks);
    AnswersHoldRecords(INITIAL, chunks);
    assert [] + Records(Answers(INITIAL, chunks)) == Records(Answers(INITIAL, chunks));
  }

  // ------------------------------------------------------------ the code

  lemma {:induction false} FeedNext(s: State, data: string, i: nat)
    requires Valid(s) && i < |data|
    ensures FeedAll(s, data[..i + 1]) == Feed(FeedAll(s, data[..i]), data[i])
  {
    assert data[..i + 1][..i] == data[..i];
  }

  lemma {:induction false} FailsEarly(s: State, data: string, i: nat)
    requires Valid(s) && i <= |data| && FeedAll(s, data[..i]).mode == Failed
    ensures FeedAll(s, data) == FeedAll(s, data[..i])
  {
    FeedConcat(s, data[..i], data[i..]);
    FailedStays(FeedAll(s, data[..i]), data[i..]);
    assert data == data[..i] + data[i..];
  }

  class Decoder<T> {
    const deserialize: string -> Try<T>
    var mode: Mode
    var buffer: string
    var length: Option<nat>
    ghost var records: seq<string>

    ghost function Abstract(): State
      reads this
    {
      State(mode, buffer, length, records)
    }

    constructor (deserialize: string -> Try<T>)
      ensures Abstract() == INITIAL && this.deserialize == deserialize
    {
      this.deserialize := deserialize;
      mode, buffer, length, records := Header, [], None, [];
    }

    /** One round of the loop: the record that the character completes, if any, deserialized. */
    method Read(c: char) returns (record: Option<Try<T>>)
      requires Valid(Abstract()) && mode != Failed
      modifies this
      ensures Abstract() == Feed(old(Abstract()), c)
      ensures record == if records == old(records) then None else Some(deserialize(records[|records| - 1]))
    {
      record := None;
      if mode == Header {
        if c != '\n' {
          buffer := buffer + [c];
        } else {
          var size := Numify(buffer, SIZE_MAX);
          if size.None? {
            mode := Failed;
          } else {
            length, buffer, mode := size, [], Record;
            if size.value == 0 {
              record, mode, records := Some(deserialize(buffer)), Header, records + [buffer];
            }
          }
        }
      } else {
        buffer := buffer + [c];
        if |buffer| == length.value {
          record, records := Some(deserialize(buffer)), records + [buffer];
          buffer, mode := [], Header;
        }
      }
    }

    method Decode(data: string) returns (answer: Try<seq<Try<T>>>)
      requires Valid(Abstract())
      modifies this
      ensures Abstract() == FeedAll(old(Abstract()), data)
      ensures answer.Ok? <==> Answer(old(Abstract()), data).Ok?
      ensures answer.Ok? ==>
                var raw := Answer(old(Abstract()), data).value;
                |answer.value| == |raw| && forall i :: 0 <= i < |raw| ==> answer.value[i] == deserialize(raw[i])
    {
      ghost var start := Abstract();
      if mode == Failed {
        FailedStays(start, data);
        return Error;
      }
      var decoded: seq<Try<T>> := [];
      for i := 0 to |data|
        invariant mode != Failed && Abstract() == FeedAll(start, data[..i])
        invariant start.records <= records && |decoded| == |records| - |start.records|
        invariant forall k :: 0 <= k < |decoded| ==> decoded[k] == deserialize(records[|start.records| + k])
      {
        FeedNext(start, data, i);
        var record := Read(data[i]);
        if record.Some? {
          decoded := decoded + [record.value];
        }
        if mode == Failed {
          FailsEarly(start, data, i + 1);
          return Error;
        }
      }
      assert data[..|data|] == data;
      answer := Ok(decoded);
    }
  }
}
