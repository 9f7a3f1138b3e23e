/** Decimal notation of natural numbers. */
module Decimals {
  import opened Common

  predicate IsDigit(c: char) {
    '0' <= c <= '9'
  }

  function Digit(d: nat): char
    requires d < 10
  {
    '0' + d as char
  }

  function DigitValue(c: char): nat
    requires IsDigit(c)
  {
    (c - '0') as nat
  }

  predicate AllDigits(s: string) {
    forall i :: 0 <= i < |s| ==> IsDigit(s[i])
  }

  /** `stringify` of an unsigned number. */
  function Decimal(n: nat): (s: string)
    ensures s != ""
  {
    if n < 10 then [Digit(n)] else Decimal(n / 10) + [Digit(n % 10)]
  }

  function ValueOf(s: string): nat
    requires AllDigits(s)
  {
    if s == "" then 0 else 10 * ValueOf(s[..|s| - 1]) + DigitValue(s[|s| - 1])
  }

  /** A reader of numbers is any function that reads decimal notation below the
      limit correctly, whatever else it accepts. */
  ghost predicate ReadsDecimals(numify: string -> Try<nat>, limit: nat) {
    forall s :: s != "" && AllDigits(s) && ValueOf(s) < limit ==> numify(s) == Ok(ValueOf(s))
  }

  lemma {:induction false} DecimalRoundTrip(n: nat)
    ensures AllDigits(Decimal(n)) && ValueOf(Decimal(n)) == n
  {
    if n < 10 {
      assert Decimal(n)[..0] == "";
      assert ValueOf("") == 0;
    } else {
      DecimalRoundTrip(n / 10);
      var s := Decimal(n);
      assert s[..|s| - 1] == Decimal(n / 10);
      assert s[|s| - 1] == Digit(n % 10);
    }
  }

  /** Reading back what was printed. */
  lemma NumifyDecimal(numify: string -> Try<nat>, limit: nat, n: nat)
    requires ReadsDecimals(numify, limit) && n < limit
    ensures numify(Decimal(n)) == Ok(n)
  {
    DecimalRoundTrip(n);
  }
}

/** Record-IO: records prefixed by their length in decimal and a newline. */
module RecordIO {
  import opened Common
  import opened Decimals

  /** `size_t` has 64 bits. */
  const SIZE_LIMIT: nat := 0x1_0000_0000_0000_0000

  /** `Encoder::encode`, on a serialized record. */
  function Encode(record: string): string {
    Decimal(|record|) + "\n" + record
  }

  function EncodeAll(records: seq<string>): string {
    if records == [] then "" else Encode(records[0]) + EncodeAll(records[1..])
  }

  // ---------------------------------------------------------------------
  // What one character does to the decoder
  // ---------------------------------------------------------------------

  datatype Phase = HEADER | RECORD | FAILED

  datatype View = View(phase: Phase, buffer: string, length: Option<nat>)

  const INITIAL := View(HEADER, "", None)

  /** The condition of the `CHECK`s made while reading a record. */
  predicate Sane(v: View) {
    v.phase == RECORD ==> v.length.Some? && |v.buffer| < v.length.value
  }

  type Reader = string -> Try<nat>

  /** The state after one more character. */
  function After(numify: Reader, v: View, c: char): View {
    match v.phase
    case HEADER =>
      if c != '\n' then v.(buffer := v.buffer + [c])
      else
        var n := numify(v.buffer);
        if n.Error? then v.(phase := FAILED)
        else if n.value == 0 then View(HEADER, "", Some(0))
        else View(RECORD, "", Some(n.value))
    case RECORD =>
      var buffer := v.buffer + [c];
      if v.length == Some(|buffer|) then View(HEADER, "", v.length) else v.(buffer := buffer)
    case FAILED => v
  }

  /** The record that one more character completes, if it does. */
  function Completes(numify: Reader, v: View, c: char): seq<string> {
    match v.phase
    case HEADER => if c == '\n' && numify(v.buffer) == Ok(0) then [""] else []
    case RECORD => if v.length == Some(|v.buffer| + 1) then [v.buffer + [c]] else []
    case FAILED => []
  }

  function Run(numify: Reader, v: View, data: string): View
    decreases data
  {
    if data == "" then v else Run(numify, After(numify, v, data[0]), data[1..])
  }

  function Out(numify: Reader, v: View, data: string): seq<string>
    decreases data
  {
    if data == "" then []
    else Completes(numify, v, data[0]) + Out(numify, After(numify, v, data[0]), data[1..])
  }

  function MapDecode<T>(deserialize: string -> Try<T>, records: seq<string>): seq<Try<T>> {
    seq(|records|, i requires 0 <= i < |records| => deserialize(records[i]))
  }

  lemma Unfold(numify: Reader, v: View, data: string, i: nat)
    requires i < |data|
    ensures Run(numify, v, data[i..]) == Run(numify, After(numify, v, data[i]), data[i + 1..])
    ensures Out(numify, v, data[i..]) ==
            Completes(numify, v, data[i]) + Out(numify, After(numify, v, data[i]), data[i + 1..])
  {
    assert data[i..][0] == data[i] && data[i..][1..] == data[i + 1..];
  }

  lemma Nothing<T>(numify: Reader, v: View, deserialize: string -> Try<T>)
    ensures Run(numify, v, "") == v && Out(numify, v, "") == [] && MapDecode(deserialize, []) == []
  {
  }

  lemma MapDecodeConcat<T>(deserialize: string -> Try<T>, a: seq<string>, b: seq<string>)
    ensures MapDecode(deserialize, a + b) == MapDecode(deserialize, a) + MapDecode(deserialize, b)
  {
  }

  lemma MapDecodeAppend<T>(deserialize: string -> Try<T>, records: seq<string>, record: string)
    ensures MapDecode(deserialize, records + [record]) == MapDecode(deserialize, records) + [deserialize(record)]
  {
  }

  // ---------------------------------------------------------------------
  // The decoder object
  // ---------------------------------------------------------------------

  class Decoder<T> {
    var state: Phase
    var buffer: string
    var length: Option<nat>
    const numify: Reader
    const deserialize: string -> Try<T>

    function Current(): View
      reads this
    {
      View(state, buffer, length)
    }

    constructor (numify: Reader, deserialize: string -> Try<T>)
      ensures Current() == INITIAL
      ensures this.numify == numify && this.deserialize == deserialize
    {
      state, buffer, length := HEADER, "", None;
      this.numify, this.deserialize := numify, deserialize;
    }

    /** One character: the header grows or ends, or the record does. */
    method Feed(c: char) returns (done: seq<string>)
      requires Sane(Current()) && state != FAILED
      modifies this
      ensures Current() == After(numify, old(Current()), c) && Sane(Current())
      ensures done == Completes(numify, old(Current()), c)
    {
      done := [];
      if state == HEADER {
        if c != '\n' {
          buffer := buffer + [c];
          return;
        }
        var n := numify(buffer);
        if n.Error? {
          state := FAILED;
          return;
        }
        length := Some(n.value);
        buffer := "";
        state := RECORD;
        if n.value <= 0 {
          done := [buffer];
          state := HEADER;
        }
      } else {
        assert length.Some? && |buffer| < length.value;
        buffer := buffer + [c];
        if length == Some(|buffer|) {
          done := [buffer];
          buffer := "";
          state := HEADER;
        }
      }
    }

    /** `Decoder::decode`. The precondition is an invariant of every decoder. When a
        bad header is met, the records completed in the same call are not returned. */
    method Decode(data: string) returns (result: Try<seq<Try<T>>>)
      requires Sane(Current())
      modifies this
      ensures Current() == Run(numify, old(Current()), data) && Sane(Current())
      ensures state == FAILED ==> result == Error
      ensures state != FAILED ==> result == Ok(MapDecode(deserialize, Out(numify, old(Current()), data)))
    {
      hide Run, Out, MapDecode, After, Completes;
      if state == FAILED {
        StaysFailed(numify, Current(), data);
        return Error;
      }
      Nothing(numify, Current(), deserialize);
      assert data[0..] == data;
      var records: seq<Try<T>> := [];
      ghost var out: seq<string> := [];
      var i := 0;
      while i < |data|
        invariant 0 <= i <= |data|
        invariant state != FAILED && Sane(Current())
        invariant records == MapDecode(deserialize, out)
        invariant Run(numify, old(Current()), data) == Run(numify, Current(), data[i..])
        invariant Out(numify, old(Current()), data) == out + Out(numify, Current(), data[i..])
      {
        Unfold(numify, Current(), data, i);
        AtMostOne(numify, Current(), data[i]);
        var done := Feed(data[i]);
        i := i + 1;
        if state == FAILED {
          StaysFailed(numify, Current(), data[i..]);
          return Error;
        }
        assert out + (done + Out(numify, Current(), data[i..])) == out + done + Out(numify, Current(), data[i..]);
        if done != [] {
          MapDecodeAppend(deserialize, out, done[0]);
          records := records + [deserialize(done[0])];
          assert out + done == out + [done[0]];
        } else {
          assert out + done == out;
        }
        out := out + done;
      }
      assert data[i..] == "";
      Nothing(numify, Current(), deserialize);
      assert out + [] == out;
      result := Ok(records);
    }

    /** A caller that passes the chunks on one by one and keeps what it gets. */
    method DecodeAll(chunks: seq<string>) returns (records: seq<Try<T>>)
      requires Sane(Current())
      modifies this
      ensures Current() == RunChunks(numify, old(Current()), chunks) && Sane(Current())
      ensures records == MapDecode(deserialize, Returned(numify, old(Current()), chunks))
    {
      hide Run, Out, MapDecode;
      records := [];
      ghost var kept: seq<string> := [];
      Nothing(numify, Current(), deserialize);
      assert chunks[0..] == chunks;
      for i := 0 to |chunks|
        invariant Sane(Current())
        invariant records == MapDecode(deserialize, kept)
        invariant RunChunks(numify, old(Current()), chunks) == RunChunks(numify, Current(), chunks[i..])
        invariant Returned(numify, old(Current()), chunks) == kept + Returned(numify, Current(), chunks[i..])
      {
        assert chunks[i..][0] == chunks[i] && chunks[i..][1..] == chunks[i + 1..];
        ghost var more := Out(numify, Current(), chunks[i]);
        var result := Decode(chunks[i]);
        ghost var rest := Returned(numify, Current(), chunks[i + 1..]);
        if result.Ok? {
          MapDecodeConcat(deserialize, kept, more);
          records := records + result.value;
          assert kept + (more + rest) == kept + more + rest;
          kept := kept + more;
        } else {
          assert [] + rest == rest;
        }
      }
      assert chunks[|chunks|..] == [] && kept + [] == kept;
    }
  }

  lemma AtMostOne(numify: Reader, v: View, c: char)
    ensures Completes(numify, v, c) == [] || Completes(numify, v, c) == [Completes(numify, v, c)[0]]
  {
  }

  // ---------------------------------------------------------------------
  // Properties of all byte streams
  // ---------------------------------------------------------------------

  lemma {:induction false} StaysFailed(numify: Reader, v: View, data: string)
    requires v.phase == FAILED
    ensures Run(numify, v, data) == v && Out(numify, v, data) == []
    decreases data
  {
    if data != "" {
      StaysFailed(numify, v, data[1..]);
    }
  }

  /** The `CHECK`s on the record state never fail. */
  lemma {:induction false} RunIsSane(numify: Reader, v: View, data: string)
    requires Sane(v)
    ensures Sane(Run(numify, v, data))
    decreases data
  {
    if data != "" {
      RunIsSane(numify, After(numify, v, data[0]), data[1..]);
    }
  }

  lemma {:induction false} RunConcat(numify: Reader, v: View, a: string, b: string)
    ensures Run(numify, v, a + b) == Run(numify, Run(numify, v, a), b)
    ensures Out(numify, v, a + b) == Out(numify, v, a) + Out(numify, Run(numify, v, a), b)
    decreases a
  {
    if a == "" {
      assert a + b == b;
    } else {
      assert (a + b)[0] == a[0] && (a + b)[1..] == a[1..] + b;
      RunConcat(numify, After(numify, v, a[0]), a[1..], b);
    }
  }

  function Concat(chunks: seq<string>): string {
    if chunks == [] then "" else chunks[0] + Concat(chunks[1..])
  }

  /** The state and the outputs of successive calls, one chunk each. */
  function RunChunks(numify: Reader, v: View, chunks: seq<string>): View
    decreases chunks
  {
    if chunks == [] then v else RunChunks(numify, Run(numify, v, chunks[0]), chunks[1..])
  }

  function OutChunks(numify: Reader, v: View, chunks: seq<string>): seq<string>
    decreases chunks
  {
    if chunks == [] then []
    else Out(numify, v, chunks[0]) + OutChunks(numify, Run(numify, v, chunks[0]), chunks[1..])
  }

  /** For any byte stream, how it is cut into chunks makes no difference. */
  lemma {:induction false} ChunkingIsIrrelevant(numify: Reader, v: View, chunks: seq<string>)
    ensures RunChunks(numify, v, chunks) == Run(numify, v, Concat(chunks))
    ensures OutChunks(numify, v, chunks) == Out(numify, v, Concat(chunks))
    decreases chunks
  {
    if chunks != [] {
      ChunkingIsIrrelevant(numify, Run(numify, v, chunks[0]), chunks[1..]);
      RunConcat(numify, v, chunks[0], Concat(chunks[1..]));
    }
  }

  // ---------------------------------------------------------------------
  // What the calls return
  // ---------------------------------------------------------------------

  /** The records returned by successive calls: a call that ends FAILED returns none. */
  function Returned(numify: Reader, v: View, chunks: seq<string>): seq<string>
    decreases chunks
  {
    if chunks == [] then []
    else
      var next := Run(numify, v, chunks[0]);
      (if next.phase == FAILED then [] else Out(numify, v, chunks[0])) + Returned(numify, next, chunks[1..])
  }

  /** The decoder fails while it reads chunk `k`. */
  ghost predicate FailsIn(numify: Reader, v: View, chunks: seq<string>, k: nat)
    requires k < |chunks|
  {
    RunChunks(numify, v, chunks[..k]).phase != FAILED
    && Run(numify, RunChunks(numify, v, chunks[..k]), chunks[k]).phase == FAILED
  }

  /** The records completed in the chunk in which the decoder fails. */
  ghost function Lost(numify: Reader, v: View, chunks: seq<string>): seq<string>
    decreases chunks
  {
    if chunks == [] then []
    else
      var next := Run(numify, v, chunks[0]);
      if next.phase == FAILED then Out(numify, v, chunks[0]) else Lost(numify, next, chunks[1..])
  }

  lemma {:induction false} FailedReturnsNothing(numify: Reader, v: View, chunks: seq<string>)
    requires v.phase == FAILED
    ensures Returned(numify, v, chunks) == [] && OutChunks(numify, v, chunks) == []
    ensures RunChunks(numify, v, chunks) == v
    decreases chunks
  {
    if chunks != [] {
      StaysFailed(numify, v, chunks[0]);
      FailedReturnsNothing(numify, v, chunks[1..]);
    }
  }

  /** What is completed is what is returned, and then what is lost. */
  lemma {:induction false} ReturnedAndLost(numify: Reader, v: View, chunks: seq<string>)
    ensures OutChunks(numify, v, chunks) == Returned(numify, v, chunks) + Lost(numify, v, chunks)
    decreases chunks
  {
    if chunks != [] {
      var next, tail := Run(numify, v, chunks[0]), chunks[1..];
      if next.phase == FAILED {
        FailedReturnsNothing(numify, next, tail);
      } else {
        ReturnedAndLost(numify, next, tail);
        var a, b, c := Out(numify, v, chunks[0]), Returned(numify, next, tail), Lost(numify, next, tail);
        assert a + (b + c) == (a + b) + c;
      }
    }
  }

  lemma RunChunksSplits(numify: Reader, v: View, chunks: seq<string>, k: nat)
    requires k < |chunks|
    ensures RunChunks(numify, v, chunks[..k + 1]) == RunChunks(numify, Run(numify, v, chunks[0]), chunks[1..][..k])
  {
    assert chunks[..k + 1][0] == chunks[0] && chunks[..k + 1][1..] == chunks[1..][..k];
  }

  lemma {:induction false} LostMeans(numify: Reader, v: View, chunks: seq<string>)
    requires v.phase != FAILED
    ensures Lost(numify, v, chunks) == [] <==>
            forall k :: 0 <= k < |chunks| && FailsIn(numify, v, chunks, k) ==>
              Out(numify, RunChunks(numify, v, chunks[..k]), chunks[k]) == []
    decreases chunks
  {
    hide Run, Out;
    if chunks != [] {
      var next, tail := Run(numify, v, chunks[0]), chunks[1..];
      assert chunks[..0] == [];
      assert FailsIn(numify, v, chunks, 0) <==> next.phase == FAILED;
      forall k | 0 <= k < |tail|
        ensures RunChunks(numify, v, chunks[..k + 1]) == RunChunks(numify, next, tail[..k]) && chunks[k + 1] == tail[k]
      {
        RunChunksSplits(numify, v, chunks, k);
      }
      if next.phase == FAILED {
        forall k | 1 <= k < |chunks| ensures !FailsIn(numify, v, chunks, k) {
          assert RunChunks(numify, v, chunks[..k - 1 + 1]) == RunChunks(numify, next, tail[..k - 1]);
          FailedReturnsNothing(numify, next, tail[..k - 1]);
        }
      } else {
        LostMeans(numify, next, tail);
        LostLater(numify, v, chunks);
      }
    }
  }

  lemma LostLater(numify: Reader, v: View, chunks: seq<string>)
    requires chunks != [] && Run(numify, v, chunks[0]).phase != FAILED
    ensures (forall k :: 0 <= k < |chunks| && FailsIn(numify, v, chunks, k) ==>
               Out(numify, RunChunks(numify, v, chunks[..k]), chunks[k]) == []) <==>
            (forall k :: 0 <= k < |chunks[1..]| && FailsIn(numify, Run(numify, v, chunks[0]), chunks[1..], k) ==>
               Out(numify, RunChunks(numify, Run(numify, v, chunks[0]), chunks[1..][..k]), chunks[1..][k]) == [])
  {
    hide Run, Out;
    var next, tail := Run(numify, v, chunks[0]), chunks[1..];
    assert chunks[..0] == [] && !FailsIn(numify, v, chunks, 0);
    forall k | 0 <= k < |tail|
      ensures FailsIn(numify, next, tail, k) <==> FailsIn(numify, v, chunks, k + 1)
      ensures RunChunks(numify, v, chunks[..k + 1]) == RunChunks(numify, next, tail[..k]) && chunks[k + 1] == tail[k]
    {
      RunChunksSplits(numify, v, chunks, k);
    }
    if forall k :: 0 <= k < |tail| && FailsIn(numify, next, tail, k) ==>
                     Out(numify, RunChunks(numify, next, tail[..k]), tail[k]) == [] {
      forall k | 0 <= k < |chunks| && FailsIn(numify, v, chunks, k)
        ensures Out(numify, RunChunks(numify, v, chunks[..k]), chunks[k]) == []
      {
        assert FailsIn(numify, next, tail, k - 1);
        assert chunks[..k - 1 + 1] == chunks[..k];
      }
    }
    if forall k :: 0 <= k < |chunks| && FailsIn(numify, v, chunks, k) ==>
                     Out(numify, RunChunks(numify, v, chunks[..k]), chunks[k]) == [] {
      forall k | 0 <= k < |tail| && FailsIn(numify, next, tail, k)
        ensures Out(numify, RunChunks(numify, next, tail[..k]), tail[k]) == []
      {
        assert FailsIn(numify, v, chunks, k + 1);
      }
    }
  }

  /** The calls return every completed record exactly when the chunk in which the
      decoder fails, if there is one, completes none. */
  lemma ReturnedIsComplete(numify: Reader, v: View, chunks: seq<string>)
    requires v.phase != FAILED
    ensures Returned(numify, v, chunks) == OutChunks(numify, v, chunks) <==>
            forall k :: 0 <= k < |chunks| && FailsIn(numify, v, chunks, k) ==>
              Out(numify, RunChunks(numify, v, chunks[..k]), chunks[k]) == []
  {
    hide Returned, OutChunks, Lost, FailsIn, Run, Out, RunChunks;
    ReturnedAndLost(numify, v, chunks);
    LostMeans(numify, v, chunks);
    if Lost(numify, v, chunks) == [] {
      assert Returned(numify, v, chunks) + [] == Returned(numify, v, chunks);
    }
  }

  /** A decoder that has not failed in the end has lost nothing. */
  lemma {:induction false} NothingLost(numify: Reader, v: View, chunks: seq<string>)
    requires RunChunks(numify, v, chunks).phase != FAILED
    ensures Returned(numify, v, chunks) == OutChunks(numify, v, chunks)
    decreases chunks
  {
    if chunks != [] {
      var next := Run(numify, v, chunks[0]);
      if next.phase == FAILED {
        FailedReturnsNothing(numify, next, chunks[1..]);
      } else {
        NothingLost(numify, next, chunks[1..]);
      }
    }
  }

  // ---------------------------------------------------------------------
  // Decoding what was encoded
  // ---------------------------------------------------------------------

  lemma {:induction false} ReadsHeader(numify: Reader, v: View, digits: string)
    requires v.phase == HEADER && '\n' !in digits
    ensures Run(numify, v, digits) == v.(buffer := v.buffer + digits) && Out(numify, v, digits) == []
    decreases digits
  {
    if digits == "" {
      assert v.buffer + digits == v.buffer;
    } else {
      var v1 := v.(buffer := v.buffer + [digits[0]]);
      assert digits == [digits[0]] + digits[1..];
      ReadsHeader(numify, v1, digits[1..]);
      assert v1.buffer + digits[1..] == v.buffer + digits;
    }
  }

  lemma {:induction false} ReadsRecord(numify: Reader, v: View, rest: string)
    requires v.phase == RECORD && v.length == Some(|v.buffer| + |rest|) && rest != ""
    ensures Run(numify, v, rest) == View(HEADER, "", v.length)
    ensures Out(numify, v, rest) == [v.buffer + rest]
    decreases rest
  {
    var buffer := v.buffer + [rest[0]];
    assert rest == [rest[0]] + rest[1..];
    if |rest| == 1 {
      assert rest[1..] == "" && v.buffer + rest == buffer;
    } else {
      var v1 := v.(buffer := buffer);
      ReadsRecord(numify, v1, rest[1..]);
      assert v1.buffer + rest[1..] == v.buffer + rest;
    }
  }

  /** A header line: the state it leads to, and the record if it is an empty one. */
  lemma ReadsLine(numify: Reader, v: View, n: nat)
    requires ReadsDecimals(numify, SIZE_LIMIT) && n < SIZE_LIMIT
    requires v.phase == HEADER && v.buffer == ""
    ensures Run(numify, v, Decimal(n) + "\n") == View(if n == 0 then HEADER else RECORD, "", Some(n))
    ensures Out(numify, v, Decimal(n) + "\n") == if n == 0 then [""] else []
  {
    var header := Decimal(n);
    DecimalRoundTrip(n);
    NumifyDecimal(numify, SIZE_LIMIT, n);
    ReadsHeader(numify, v, header);
    var v1 := v.(buffer := header);
    assert v.buffer + header == header;
    RunConcat(numify, v, header, "\n");
    assert "\n"[1..] == "";
    assert Run(numify, v1, "\n") == Run(numify, After(numify, v1, '\n'), "");
    assert Out(numify, v1, "\n") == Completes(numify, v1, '\n') + Out(numify, After(numify, v1, '\n'), "");
  }

  lemma ReadsOne(numify: Reader, v: View, record: string)
    requires ReadsDecimals(numify, SIZE_LIMIT) && |record| < SIZE_LIMIT
    requires v.phase == HEADER && v.buffer == ""
    ensures Run(numify, v, Encode(record)) == View(HEADER, "", Some(|record|))
    ensures Out(numify, v, Encode(record)) == [record]
  {
    var line := Decimal(|record|) + "\n";
    ReadsLine(numify, v, |record|);
    RunConcat(numify, v, line, record);
    if record != "" {
      var v1 := View(RECORD, "", Some(|record|));
      ReadsRecord(numify, v1, record);
      assert v1.buffer + record == record;
    }
  }

  lemma {:induction false} ReadsAll(numify: Reader, v: View, records: seq<string>)
    requires ReadsDecimals(numify, SIZE_LIMIT) && forall i :: 0 <= i < |records| ==> |records[i]| < SIZE_LIMIT
    requires v.phase == HEADER && v.buffer == ""
    ensures Run(numify, v, EncodeAll(records)).phase == HEADER && Run(numify, v, EncodeAll(records)).buffer == ""
    ensures Out(numify, v, EncodeAll(records)) == records
    decreases records
  {
    if records != [] {
      ReadsOne(numify, v, records[0]);
      ReadsAll(numify, View(HEADER, "", Some(|records[0]|)), records[1..]);
      RunConcat(numify, v, Encode(records[0]), EncodeAll(records[1..]));
    }
  }

  /** Encoded records, however the bytes are cut into chunks, come out complete and
      in order, and leave the decoder waiting for a header with an empty buffer. */
  lemma DecodesWhatWasEncoded<T>(
    numify: Reader, serialize: T -> string, deserialize: string -> Try<T>, values: seq<T>, chunks: seq<string>)
    requires ReadsDecimals(numify, SIZE_LIMIT)
    requires forall i :: 0 <= i < |values| ==>
               |serialize(values[i])| < SIZE_LIMIT && deserialize(serialize(values[i])) == Ok(values[i])
    requires Concat(chunks) == EncodeAll(seq(|values|, i requires 0 <= i < |values| => serialize(values[i])))
    ensures var v := RunChunks(numify, INITIAL, chunks);
            && v.phase == HEADER && v.buffer == ""
            && MapDecode(deserialize, Returned(numify, INITIAL, chunks)) ==
                 seq(|values|, i requires 0 <= i < |values| => Ok(values[i]))
  {
    hide Returned, OutChunks, RunChunks, Run, Out;
    var records := seq(|values|, i requires 0 <= i < |values| => serialize(values[i]));
    ChunkingIsIrrelevant(numify, INITIAL, chunks);
    ReadsAll(numify, INITIAL, records);
    NothingLost(numify, INITIAL, chunks);
  }

  /** A bad header after any records: sent in the same chunk it takes all of them
      along, sent in a chunk of its own it takes none. */
  lemma FailureDropsRecords(numify: Reader, records: seq<string>, header: string)
    requires ReadsDecimals(numify, SIZE_LIMIT) && forall i :: 0 <= i < |records| ==> |records[i]| < SIZE_LIMIT
    requires '\n' !in header && numify(header).Error?
    ensures var good, bad := EncodeAll(records), header + "\n";
            && OutChunks(numify, INITIAL, [good + bad]) == OutChunks(numify, INITIAL, [good, bad]) == records
            && Returned(numify, INITIAL, [good + bad]) == []
            && Returned(numify, INITIAL, [good, bad]) == records
  {
    hide Run, Out, EncodeAll;
    var good, bad := EncodeAll(records), header + "\n";
    ReadsAll(numify, INITIAL, records);
    var v := Run(numify, INITIAL, good);
    BadLine(numify, v, header);
    RunConcat(numify, INITIAL, good, bad);
    OneChunk(numify, INITIAL, good + bad);
    OneChunk(numify, v, bad);
    assert [good, bad][1..] == [bad];
    assert records + [] == records;
  }

  lemma OneChunk(numify: Reader, v: View, data: string)
    ensures OutChunks(numify, v, [data]) == Out(numify, v, data)
    ensures Returned(numify, v, [data]) == if Run(numify, v, data).phase == FAILED then [] else Out(numify, v, data)
  {
    hide Run, Out;
    assert [data][1..] == [];
    assert Out(numify, v, data) + [] == Out(numify, v, data);
  }

  lemma BadLine(numify: Reader, v: View, header: string)
    requires v.phase == HEADER && v.buffer == "" && '\n' !in header && numify(header).Error?
    ensures Run(numify, v, header + "\n").phase == FAILED && Out(numify, v, header + "\n") == []
  {
    hide Run, Out;
    ReadsHeader(numify, v, header);
    RunConcat(numify, v, header, "\n");
    assert v.buffer + header == header && "\n"[0..] == "\n" && "\n"[1..] == "";
    var v1 := v.(buffer := header);
    Unfold(numify, v1, "\n", 0);
    StaysFailed(numify, After(numify, v1, '\n'), "");
  }
}
