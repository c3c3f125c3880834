/** The write side of the MFC-style Power Tab serialiser: `PowerTabOutputStream`,
    a wrapper around a `std::ostream` that keeps a sticky failure state, the two
    identity tables of the MFC archive format (class ids and object pointers) and
    writers for fixed-width values and vectors.

    Its state is the class below. Every write it makes is also recorded in a ghost
    log, which is what the contracts speak about where the header does not show the
    bytes a writer produces.
 */
module PowerTabStream {
  import opened RawBytes

  /** `uint32_t`. */
  type uint32 = x: int | 0 <= x < 0x1_0000_0000

  /** `PowerTabStreamError`. `NoError` is `POWERTABSTREAM_NO_ERROR`; the other
      enumerators are told apart only by their code. */
  datatype PowerTabStreamError = NoError | PowerTabError(code: nat)

  /** A document object the serialiser writes. Only its identity (the pointer
      the object table is keyed by) matters here. */
  class PowerTabObject {
  }

  /** The `std::ostream` the serialiser is wrapped around: the bytes its sink
      holds and its fail bit. Why a sink refuses bytes (a full disk, a closed
      file) is not modelled: a write may stop after any prefix of its bytes, and
      then the fail bit is set. A stream whose fail bit is set writes nothing. */
  class OStream {
    var bytes: seq<byte>
    var failed: bool

    constructor (initial: seq<byte>)
      ensures bytes == initial && !failed
    {
      bytes := initial;
      failed := false;
    }

    /** `std::ostream::write`. */
    method Write(data: seq<byte>)
      modifies this
      ensures WriteOutcome(old(bytes), old(failed), data, bytes, failed)
    {
      if !failed {
        var accepted: nat :| accepted <= |data|;
        bytes := bytes + data[..accepted];
        failed := accepted < |data|;
      }
    }
  }

  /** What one `std::ostream::write` of `data` may do to a sink holding
      `before` with fail bit `failedBefore`. */
  predicate WriteOutcome(before: seq<byte>, failedBefore: bool, data: seq<byte>,
                         after: seq<byte>, failedAfter: bool)
  {
    && |before| <= |after| <= |before| + |data|
    && after == before + data[..|after| - |before|]
    && (failedBefore ==> after == before)
    && (failedAfter <==> failedBefore || |after| < |before| + |data|)
  }

  /** Two writes in a row may do what one write of both byte strings may do:
      a failed first write stops the second. */
  lemma WriteOutcomeConcat(b0: seq<byte>, f0: bool, d1: seq<byte>, b1: seq<byte>, f1: bool,
                           d2: seq<byte>, b2: seq<byte>, f2: bool)
    requires WriteOutcome(b0, f0, d1, b1, f1) && WriteOutcome(b1, f1, d2, b2, f2)
    ensures WriteOutcome(b0, f0, d1 + d2, b2, f2)
  {
  }

  /** A write the serialiser made, as its caller asked for it. */
  datatype Call =
    | Count(count: uint32)                        // WriteCount
    | Object(written: PowerTabObject?)            // WriteObject
    | ClassInformation(instance: PowerTabObject?) // WriteClassInformation
    | Mapping(mapped: PowerTabObject?)            // MapObject
    | MFCString(text: string)                     // WriteMFCString
    | Raw(data: seq<byte>)                        // operator<< and m_stream.write

  /** One write: what was asked for, the bytes that reached the sink, and what
      `CheckState()` reports right after it. */
  datatype Step = Step(call: Call, emitted: seq<byte>, goodAfter: bool)

  /** The bytes a sequence of writes put in the sink, in order. */
  ghost function Emitted(steps: seq<Step>): seq<byte> {
    if steps == [] then [] else steps[0].emitted + Emitted(steps[1..])
  }

  lemma {:induction false} EmittedConcat(a: seq<Step>, b: seq<Step>)
    ensures Emitted(a + b) == Emitted(a) + Emitted(b)
  {
    if a == [] {
      assert a + b == b;
    } else {
      assert (a + b)[0] == a[0] && (a + b)[1..] == a[1..] + b;
      EmittedConcat(a[1..], b);
    }
  }

  /** Appending one write to a log appends its bytes. */
  lemma EmittedAppend(steps: seq<Step>, step: Step)
    ensures Emitted(steps + [step]) == Emitted(steps) + step.emitted
  {
    EmittedConcat(steps, [step]);
    assert [step][1..] == [];
  }

  /** The calls `WriteVector` made when it wrote `written` elements of `vect`:
      the count, then one `WriteObject` per element in index order. */
  ghost predicate VectorWrites(vect: seq<PowerTabObject?>, written: nat, steps: seq<Step>) {
    && written <= |vect| < 0x1_0000_0000 && |steps| == written + 1
    && steps[0].call == Count(|vect|)
    && forall j :: 0 <= j < written ==> steps[j + 1].call == Object(vect[j])
  }

  /** A `WriteVector` call on an empty vector writes the count 0 and nothing
      else. */
  lemma EmptyVectorWritesCount(vect: seq<PowerTabObject?>, written: nat, steps: seq<Step>)
    requires VectorWrites(vect, written, steps) && vect == []
    ensures written == 0 && steps == [steps[0]] && steps[0].call == Count(0)
    ensures Emitted(steps) == steps[0].emitted
  {
  }

  /** The element writes of a `WriteVector` call that ended with `ok`: one
      `WriteObject` per element in index order, each followed by a good state
      except, when the call ended with false, the last. */
  ghost predicate ElementWrites(vect: seq<PowerTabObject?>, ok: bool, steps: seq<Step>) {
    && |steps| <= |vect|
    && (forall j :: 0 <= j < |steps| ==> steps[j].call == Object(vect[j]))
    && (forall j :: 0 <= j < |steps| ==> steps[j].goodAfter == (ok || j < |steps| - 1))
  }

  /** The count's write followed by the element writes of a `WriteVector`
      call are what `VectorWrites` describes, and put the count's bytes and
      then the elements' bytes in the sink. */
  lemma VectorStepsCompose(vect: seq<PowerTabObject?>, countStep: Step, ok: bool, elementSteps: seq<Step>)
    requires |vect| < 0x1_0000_0000 && countStep.call == Count(|vect|)
    requires ElementWrites(vect, ok, elementSteps)
    ensures VectorWrites(vect, |elementSteps|, [countStep] + elementSteps)
    ensures Emitted([countStep] + elementSteps) == countStep.emitted + Emitted(elementSteps)
  {
  }

  /** The checks after the count and after each element: all passed when the
      call returned true, and only the last failed when it returned false. */
  lemma VectorChecksCompose(countStep: Step, ok: bool, elementSteps: seq<Step>)
    requires ok ==> countStep.goodAfter
    requires !countStep.goodAfter ==> elementSteps == [] && !ok
    requires countStep.goodAfter && !ok ==> elementSteps != []
    requires forall j :: 0 <= j < |elementSteps| ==> elementSteps[j].goodAfter == (ok || j < |elementSteps| - 1)
    ensures forall i :: 0 <= i < |elementSteps| ==> ([countStep] + elementSteps)[i].goodAfter
    ensures ([countStep] + elementSteps)[|elementSteps|].goodAfter == ok
  {
  }

  /** What `WriteSmallVector` asks the sink to take: the element count
      narrowed to one byte (`uint8_t`, so modulo 256), then the contiguous
      storage of that many leading elements. */
  function SmallVectorBytes(values: seq<nat>, size: nat, order: ByteOrder): (r: seq<byte>)
    requires AllFit(values, size)
    ensures |r| == 1 + Span(|values| % 256, size)
    ensures r[0] as int == |values| % 256
  {
    var count := |values| % 256;
    assert AllFit(values[..count], size);
    [count as byte] + ElementBytes(values[..count], size, order)
  }

  /** A reader that takes the count byte and then that many elements recovers
      the leading elements the count byte says, which is the whole vector when
      it has fewer than 256 elements. */
  lemma SmallVectorRoundTrip(values: seq<nat>, size: nat, order: ByteOrder)
    requires AllFit(values, size)
    ensures var r := SmallVectorBytes(values, size, order);
            |r| - 1 == Span(r[0] as nat, size) &&
            SplitElements(r[1..], size, r[0] as nat, order) == values[..r[0]]
    ensures |values| < 256 ==>
            var r := SmallVectorBytes(values, size, order);
            SplitElements(r[1..], size, r[0] as nat, order) == values
  {
    var count := |values| % 256;
    var r := SmallVectorBytes(values, size, order);
    assert r[1..] == ElementBytes(values[..count], size, order);
    SplitElementBytes(values[..count], size, order);
    assert |values| < 256 ==> values[..count] == values;
  }

  /** Every entry of `before` is still in `after`, with the same index. */
  ghost predicate Extends<K, V>(before: map<K, V>, after: map<K, V>) {
    before.Items <= after.Items
  }

  class PowerTabOutputStream {
    var mapsInitialized: bool
    /** Class id to index. */
    var classInfoHashMap: map<string, uint32>
    /** Object pointer to index. */
    var objectHashMap: map<PowerTabObject, uint32>
    var mapCount: uint32
    var lastPowerTabError: PowerTabStreamError
    const stream: OStream
    /** The byte order in which values are laid out in memory on the host. */
    const hostOrder: ByteOrder

    /** Every write made through this serialiser, oldest first. */
    ghost var log: seq<Step>

    /** What `CheckState()` reports. */
    ghost predicate Good()
      reads this, stream
    {
      !stream.failed && lastPowerTabError == NoError
    }

    /** The effect allowed to a writer whose body is not part of this model: it
        appends some bytes to the sink (none if the stream had already failed)
        and may make the state bad, but never good again; it may add entries to
        the identity tables but keeps those already there. */
    twostate predicate OpaqueWrite(call: Call, emitted: seq<byte>)
      reads this, stream
    {
      && log == old(log) + [Step(call, emitted, Good())]
      && stream.bytes == old(stream.bytes) + emitted
      && (old(stream.failed) ==> emitted == [] && stream.failed)
      && (old(lastPowerTabError) != NoError ==> lastPowerTabError != NoError)
      && Extends(old(classInfoHashMap), classInfoHashMap)
      && Extends(old(objectHashMap), objectHashMap)
    }

    /** A raw write of `data` to the sink: all of it while the stream is good,
        a prefix of it, with the fail bit set, when the sink refuses the rest,
        and nothing once the stream has failed. */
    twostate predicate RawWrite(data: seq<byte>)
      reads this, stream
    {
      && WriteOutcome(old(stream.bytes), old(stream.failed), data, stream.bytes, stream.failed)
      && log == old(log) + [Step(Raw(data), stream.bytes[|old(stream.bytes)|..], Good())]
    }

    /** `PowerTabOutputStream(stream)`: wraps `stream` with empty identity
        tables and no error recorded. */
    constructor (stream: OStream, hostOrder: ByteOrder)
      ensures this.stream == stream && this.hostOrder == hostOrder
      ensures log == []
      ensures !mapsInitialized && classInfoHashMap == map[] && objectHashMap == map[]
      ensures mapCount == 0 && lastPowerTabError == NoError
    {
      this.stream := stream;
      this.hostOrder := hostOrder;
      mapsInitialized := false;
      classInfoHashMap := map[];
      objectHashMap := map[];
      mapCount := 0;
      lastPowerTabError := NoError;
      log := [];
    }

    /** `fail()`: the stream's fail bit. */
    method Fail() returns (failed: bool)
      ensures failed == stream.failed
    {
      failed := stream.failed;
    }

    /** `CheckState()`: true exactly when the stream has not failed and no
        Power Tab error has been recorded. */
    method CheckState() returns (ok: bool)
      ensures ok == Good()
      ensures ok <==> !stream.failed && lastPowerTabError == NoError
    {
      var failed := Fail();
      ok := !failed && lastPowerTabError == NoError;
    }

    /** `TellO()`, through `tellp()`: -1 once the stream has failed, otherwise
        the put position, which is the end of the sink. */
    method TellO() returns (position: int)
      ensures stream.failed ==> position == -1
      ensures !stream.failed ==> position == |stream.bytes|
    {
      position := if stream.failed then -1 else |stream.bytes|;
    }

    /** The changes to the error code and the identity tables that a writer
        whose body is not part of this model may make: it may record an error
        but never clears one, and may add table entries but keeps those already
        there. */
    method UpdateTables()
      modifies this`lastPowerTabError, this`classInfoHashMap, this`objectHashMap
      modifies this`mapCount, this`mapsInitialized
      ensures old(lastPowerTabError) != NoError ==> lastPowerTabError != NoError
      ensures Extends(old(classInfoHashMap), classInfoHashMap)
      ensures Extends(old(objectHashMap), objectHashMap)
    {
      var raises: bool :| true;
      if raises && lastPowerTabError == NoError {
        var code: nat :| true;
        lastPowerTabError := PowerTabError(code);
      }
      var newClasses: map<string, uint32> :| true;
      classInfoHashMap := newClasses + classInfoHashMap;
      var newObjects: map<PowerTabObject, uint32> :| true;
      objectHashMap := newObjects + objectHashMap;
      var newCount: uint32 :| true;
      mapCount := newCount;
      var initialized: bool :| true;
      mapsInitialized := initialized;
    }

    /** Shared body of the writers whose bodies are not part of this model:
        some bytes go to the sink, then the error code and the tables may
        change. */
    method AppendOpaque(call: Call) returns (ok: bool, ghost emitted: seq<byte>)
      modifies this, stream
      ensures OpaqueWrite(call, emitted) && ok == Good()
    {
      var payload: seq<byte> :| true;
      stream.Write(payload);
      emitted := stream.bytes[|old(stream.bytes)|..];
      assert stream.bytes == old(stream.bytes) + emitted;
      UpdateTables();
      ok := CheckState();
      log := log + [Step(call, emitted, Good())];
    }

    /** `WriteCount`. */
    method WriteCount(count: uint32) returns (ok: bool, ghost emitted: seq<byte>)
      modifies this, stream
      ensures OpaqueWrite(Count(count), emitted) && ok == Good()
    {
      ok, emitted := AppendOpaque(Count(count));
    }

    /** `WriteObject`: the object's class information, index and body, or a
        reference to an object already written. */
    method WriteObject(obj: PowerTabObject?) returns (ok: bool, ghost emitted: seq<byte>)
      modifies this, stream
      ensures OpaqueWrite(Object(obj), emitted) && ok == Good()
    {
      ok, emitted := AppendOpaque(Object(obj));
    }

    /** `WriteClassInformation`. */
    method WriteClassInformation(obj: PowerTabObject?) returns (ok: bool, ghost emitted: seq<byte>)
      modifies this, stream
      ensures OpaqueWrite(ClassInformation(obj), emitted) && ok == Good()
    {
      ok, emitted := AppendOpaque(ClassInformation(obj));
    }

    /** `MapObject`. */
    method MapObject(obj: PowerTabObject?) returns (ok: bool, ghost emitted: seq<byte>)
      modifies this, stream
      ensures OpaqueWrite(Mapping(obj), emitted) && ok == Good()
    {
      ok, emitted := AppendOpaque(Mapping(obj));
    }

    /** `WriteMFCString`. */
    method WriteMFCString(text: string) returns (ok: bool, ghost emitted: seq<byte>)
      modifies this, stream
      ensures OpaqueWrite(MFCString(text), emitted) && ok == Good()
    {
      ok, emitted := AppendOpaque(MFCString(text));
    }

    /** `m_stream.write`, logged. Nothing but the sink and the log changes. */
    method WriteRaw(data: seq<byte>)
      modifies stream, this`log
      ensures RawWrite(data)
    {
      stream.Write(data);
      ghost var emitted := stream.bytes[|old(stream.bytes)|..];
      assert stream.bytes == old(stream.bytes) + emitted;
      log := log + [Step(Raw(data), emitted, Good())];
    }

    /** `operator<<`: copies the `size` bytes of a value (its `sizeof`) to the
        stream, whatever `CheckState()` reports, and returns the same stream. */
    method Insert(size: nat, value: nat) returns (self: PowerTabOutputStream)
      requires Fits(value, size)
      modifies stream, this`log
      ensures self == this
      ensures RawWrite(Bytes(value, size, hostOrder))
      ensures !stream.failed ==> stream.bytes == old(stream.bytes) + Bytes(value, size, hostOrder)
      ensures !stream.failed ==> Value(stream.bytes[|old(stream.bytes)|..], hostOrder) == value
    {
      WriteRaw(Bytes(value, size, hostOrder));
      self := this;
      ValueOfBytes(value, size, hostOrder);
      assert !stream.failed ==> stream.bytes[|old(stream.bytes)|..] == Bytes(value, size, hostOrder);
    }

    /** `WriteSmallVector`: one count byte, then the elements' bytes as one
        contiguous block, with no state check in between. */
    method WriteSmallVector(size: nat, values: seq<nat>)
      requires AllFit(values, size)
      modifies stream, this`log
      ensures WriteOutcome(old(stream.bytes), old(stream.failed), SmallVectorBytes(values, size, hostOrder),
                           stream.bytes, stream.failed)
      ensures !stream.failed ==> |stream.bytes| == |old(stream.bytes)| + 1 + (|values| % 256) * size
      ensures |log| == |old(log)| + 2 && log[..|old(log)|] == old(log)
      ensures log[|old(log)|].call == Raw([(|values| % 256) as byte])
      ensures log[|old(log)| + 1].call == Raw(ElementBytes(values[..|values| % 256], size, hostOrder))
      ensures stream.bytes == old(stream.bytes) + log[|old(log)|].emitted + log[|old(log)| + 1].emitted
    {
      var count: nat := |values| % 256;
      var _ := Insert(1, count);
      ghost var afterCount, failedAfterCount := stream.bytes, stream.failed;
      ghost var logAfterCount := log;
      WriteRaw(ElementBytes(values[..count], size, hostOrder));
      assert Bytes(count, 1, hostOrder) == [count as byte];
      WriteOutcomeConcat(old(stream.bytes), old(stream.failed), [count as byte],
                         afterCount, failedAfterCount,
                         ElementBytes(values[..count], size, hostOrder), stream.bytes, stream.failed);
      assert log[..|old(log)|] == old(log) by {
        assert log == logAfterCount + [log[|log| - 1]];
      }
      SpanIsProduct(count, size);
    }

    /** `WriteVector`: the element count, then each element through
        `WriteObject` in index order; the state is checked after the count and
        after every element, and the first failed check ends the call with
        false. `steps` are the writes it made and `written` the number of
        elements among them. */
    method WriteVector(vect: seq<PowerTabObject?>) returns (ok: bool, ghost written: nat, ghost steps: seq<Step>)
      requires |vect| < 0x1_0000_0000
      requires forall i :: 0 <= i < |vect| ==> vect[i] != null
      modifies this, stream
      ensures log == old(log) + steps
      ensures VectorWrites(vect, written, steps)
      ensures forall i :: 0 <= i < written ==> steps[i].goodAfter
      ensures ok == steps[written].goodAfter == Good()
      ensures ok ==> written == |vect|
      ensures stream.bytes == old(stream.bytes) + Emitted(steps)
      ensures old(lastPowerTabError) != NoError ==> lastPowerTabError != NoError
      ensures Extends(old(classInfoHashMap), classInfoHashMap)
      ensures Extends(old(objectHashMap), objectHashMap)
      ensures !old(Good()) ==> !ok && written == 0
      ensures old(stream.failed) ==> stream.failed && stream.bytes == old(stream.bytes)
    {
      var count := |vect|;
      var _, e := WriteCount(count);
      ghost var countStep := Step(Count(count), e, Good());
      ok := CheckState();
      ghost var elementSteps := [];
      if ok {
        ok, elementSteps := WriteElements(vect);
      }
      written, steps := |elementSteps|, [countStep] + elementSteps;
      VectorStepsCompose(vect, countStep, ok, elementSteps);
      VectorChecksCompose(countStep, ok, elementSteps);
      assert old(stream.failed) ==> e == [] && elementSteps == [] && Emitted(elementSteps) == [];
    }

    /** The loop of `WriteVector`: each element through `WriteObject` in index
        order, with a state check after each, until one fails. */
    method WriteElements(vect: seq<PowerTabObject?>) returns (ok: bool, ghost steps: seq<Step>)
      requires Good()
      requires |vect| < 0x1_0000_0000
      modifies this, stream
      ensures log == old(log) + steps
      ensures ElementWrites(vect, ok, steps)
      ensures ok == Good()
      ensures ok ==> |steps| == |vect|
      ensures !ok ==> steps != []
      ensures stream.bytes == old(stream.bytes) + Emitted(steps)
      ensures Extends(old(classInfoHashMap), classInfoHashMap)
      ensures Extends(old(objectHashMap), objectHashMap)
    {
      var count: uint32 := |vect|;
      ok, steps := true, [];
      var i: uint32 := 0;
      while i < count
        invariant 0 <= i <= count && |steps| == i
        invariant log == old(log) + steps
        invariant ElementWrites(vect, true, steps)
        invariant stream.bytes == old(stream.bytes) + Emitted(steps)
        invariant Good() && ok
        invariant Extends(old(classInfoHashMap), classInfoHashMap)
        invariant Extends(old(objectHashMap), objectHashMap)
      {
        ghost var step;
        ok, step := WriteElement(vect[i]);
        EmittedAppend(steps, step);
        steps := steps + [step];
        if !ok {
          return;
        }
        i := i + 1;
      }
    }

    /** One round of `WriteVector`'s loop: `WriteObject`, then the state
        check. */
    method WriteElement(obj: PowerTabObject?) returns (ok: bool, ghost step: Step)
      modifies this, stream
      ensures log == old(log) + [step] && step.call == Object(obj)
      ensures stream.bytes == old(stream.bytes) + step.emitted
      ensures ok == step.goodAfter == Good()
      ensures Extends(old(classInfoHashMap), classInfoHashMap)
      ensures Extends(old(objectHashMap), objectHashMap)
    {
      var _, e := WriteObject(obj);
      step := Step(Object(obj), e, Good());
      ok := CheckState();
    }
  }
}
