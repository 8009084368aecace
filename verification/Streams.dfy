/** Bounded observers of subprocess output (`internal/progress/progress.go`,
    `internal/boundedio/buffer.go`). */
module Streams {
  import opened Splitting
  import opened Utf8

  const NEWLINE: Byte := 10
  const MAX_PARTIAL_LINE: nat := 4096

  function Bounded<T>(s: seq<T>, limit: nat): seq<T> { if |s| <= limit then s else s[..limit] }

  /** Truncate every line to 4096 bytes and drop the empty ones. */
  function Events(lines: seq<seq<Byte>>): seq<seq<Byte>> {
    if lines == [] then []
    else Events(Init(lines)) + if Last(lines) == [] then [] else [Bounded(Last(lines), 4096)]
  }

  /** What a complete stream reports: its lines, bounded, without the empty ones. */
  function StreamEvents(stream: seq<Byte>): seq<seq<Byte>> { Events(Split(stream, NEWLINE)) }

  function FirstNewline(value: seq<Byte>): (index: int)
    ensures -1 <= index < |value|
    ensures index < 0 ==> NEWLINE !in value
    ensures index >= 0 ==> value[index] == NEWLINE && NEWLINE !in value[..index]
  {
    if value == [] then -1
    else if value[0] == NEWLINE then 0
    else
      var rest := FirstNewline(value[1..]);
      if rest < 0 then -1 else rest + 1
  }

  /** Bounding a growing line piece by piece bounds the whole line. */
  lemma BoundedGrows(line: seq<Byte>, value: seq<Byte>, limit: nat)
    ensures var partial := Bounded(line, limit);
            var remaining := limit - |partial|;
            Bounded(line + value, limit) == partial + if |value| > remaining then value[..remaining] else value
  {
    if |line| > limit {
      assert value[..0] == [] && (line + value)[..limit] == line[..limit];
    }
  }

  lemma Regroup(stream: seq<Byte>, rest: seq<Byte>, index: nat)
    requires index < |rest|
    ensures stream + rest[..index] + [rest[index]] + rest[index + 1..] == stream + rest
  {
    assert rest == rest[..index] + [rest[index]] + rest[index + 1..];
  }

  /** Text without a newline joins the last line. */
  lemma LastLineGrows(stream: seq<Byte>, value: seq<Byte>)
    requires NEWLINE !in value
    ensures Init(Split(stream + value, NEWLINE)) == Init(Split(stream, NEWLINE))
    ensures Last(Split(stream + value, NEWLINE)) == Last(Split(stream, NEWLINE)) + value
  {
    SplitSuffix(stream, value, NEWLINE);
  }

  class LineWriter {
    var partial: seq<Byte>
    var reported: seq<seq<Byte>>
    ghost var stream: seq<Byte>  // everything written so far

    ghost predicate Valid()
      reads this
    {
      && partial == Bounded(Last(Split(stream, NEWLINE)), 4096)
      && reported == Events(Init(Split(stream, NEWLINE)))
    }

    constructor ()
      ensures Valid() && stream == [] && reported == []
    {
      partial, reported, stream := [], [], [];
    }

    /** `appendPartial`: at most MAX_PARTIAL_LINE bytes of a line are retained. */
    method AppendPartial(value: seq<Byte>)
      requires Valid() && NEWLINE !in value
      modifies this
      ensures Valid() && stream == old(stream) + value && reported == old(reported)
    {
      LastLineGrows(stream, value);
      BoundedGrows(Last(Split(stream, NEWLINE)), value, MAX_PARTIAL_LINE);
      var remaining := MAX_PARTIAL_LINE - |partial|;
      if remaining > 0 {
        partial := partial + if |value| > remaining then value[..remaining] else value;
      }
      stream := stream + value;
    }

    /** `emitLocked`, at a line end. */
    method Emit()
      requires Valid()
      modifies this
      ensures Valid() && stream == old(stream) + [NEWLINE]
      ensures reported == StreamEvents(old(stream))
    {
      ghost var lines := Split(stream, NEWLINE);
      if |partial| > 0 {
        reported := reported + [partial];
      }
      partial := [];
      SplitSeparator(stream, [], NEWLINE);
      assert stream + [NEWLINE] + [] == stream + [NEWLINE];
      stream := stream + [NEWLINE];
      assert Init(Split(stream, NEWLINE)) == lines;
    }

    method Write(value: seq<Byte>) returns (n: nat)
      requires Valid()
      modifies this
      ensures Valid() && stream == old(stream) + value && n == |value|
    {
      var rest := value;
      while |rest| > 0
        invariant Valid() && stream + rest == old(stream) + value
        decreases |rest|
      {
        var index := FirstNewline(rest);
        if index < 0 {
          AppendPartial(rest);
          rest := [];
        } else {
          Regroup(stream, rest, index);
          AppendPartial(rest[..index]);
          Emit();
          rest := rest[index + 1..];
        }
      }
      n := |value|;
    }

    /** `Close` reports the last, unterminated line. */
    method Close()
      requires Valid()
      modifies this
      ensures Valid() && reported == StreamEvents(old(stream))
    {
      Emit();
    }
  }

  /** However a stream is cut into writes, the writer reports the lines of the whole stream. */
  method ObserveChunks(chunks: seq<seq<Byte>>) returns (reported: seq<seq<Byte>>)
    ensures reported == StreamEvents(Concat(chunks))
  {
    var writer := new LineWriter();
    for i := 0 to |chunks|
      invariant writer.Valid()
      invariant writer.stream + Concat(chunks[i..]) == Concat(chunks)
    {
      assert chunks[i..][1..] == chunks[i + 1..];
      var n := writer.Write(chunks[i]);
    }
    assert writer.stream == Concat(chunks);
    writer.Close();
    reported := writer.reported;
  }

  lemma {:induction false} EventsOfCleanLines(lines: seq<seq<Byte>>, i: nat)
    requires forall k :: 0 <= k < |lines| ==> NEWLINE !in lines[k]
    requires i < |Events(lines)|
    ensures var event := Events(lines)[i]; 0 < |event| <= 4096 && NEWLINE !in event
  {
    if i < |Events(Init(lines))| {
      EventsOfCleanLines(Init(lines), i);
    }
  }

  /** Whatever a subprocess writes, each event of its stream is non-empty, newline-free and
      bounded, so no output can smuggle in an empty or oversized event. */
  lemma EventsAreLines(stream: seq<Byte>, i: nat)
    requires i < |StreamEvents(stream)|
    ensures var event := StreamEvents(stream)[i]; 0 < |event| <= 4096 && NEWLINE !in event
  {
    SplitPiecesClean(stream, NEWLINE);
    EventsOfCleanLines(Split(stream, NEWLINE), i);
  }

  class Buffer {
    var data: seq<Byte>
    const limit: nat
    var truncated: bool
    ghost var stream: seq<Byte>

    ghost predicate Valid()
      reads this
    {
      data == Bounded(stream, limit) && (truncated <==> |stream| > limit)
    }

    constructor (requested: int)
      ensures Valid() && stream == [] && limit == if requested > 0 then requested else 0
    {
      limit := if requested > 0 then requested else 0;
      data, truncated, stream := [], false, [];
    }

    method Write(value: seq<Byte>) returns (n: nat)
      requires Valid()
      modifies this
      ensures Valid() && stream == old(stream) + value && n == |value|
    {
      var remaining := limit - |data|;
      if remaining > 0 {
        data := data + if |value| > remaining then value[..remaining] else value;
      }
      if |value| > remaining {
        truncated := true;
      }
      stream := stream + value;
      n := |value|;
    }
  }

  /** The buffer ends with exactly the bounded prefix, and knows whether anything was lost. */
  method CaptureChunks(requested: int, chunks: seq<seq<Byte>>) returns (data: seq<Byte>, truncated: bool)
    ensures data == Bounded(Concat(chunks), if requested > 0 then requested else 0)
    ensures truncated <==> |Concat(chunks)| > (if requested > 0 then requested else 0)
    ensures !truncated ==> data == Concat(chunks)
  {
    var buffer := new Buffer(requested);
    for i := 0 to |chunks|
      invariant buffer.Valid()
      invariant buffer.stream + Concat(chunks[i..]) == Concat(chunks)
    {
      assert chunks[i..][1..] == chunks[i + 1..];
      var n := buffer.Write(chunks[i]);
    }
    assert buffer.stream == Concat(chunks);
    data, truncated := buffer.data, buffer.truncated;
  }
}
