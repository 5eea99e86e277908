/** The span context of the tracing API: a trace id, a span id, trace options and a
    tracestate, compared and hashed on the first three only. */
module SpanContexts {

  /** A 16-byte trace identifier; the invalid one is all zeros. */
  datatype TraceId = TraceId(bytes: seq<bv8>)
  /** An 8-byte span identifier; the invalid one is all zeros. */
  datatype SpanId = SpanId(bytes: seq<bv8>)
  /** The option flags byte carried with a span (bit 0: sampled). */
  datatype TraceOptions = TraceOptions(options: bv8)
  /** The vendor-specific key/value list carried with a span. */
  datatype Tracestate = Tracestate(entries: seq<(string, string)>)

  const TraceIdSize := 16
  const SpanIdSize := 8

  const TraceIdInvalid := TraceId([0, 0, 0, 0, 0, 0, 0, 0, 0, 0, 0, 0, 0, 0, 0, 0])
  const SpanIdInvalid := SpanId([0, 0, 0, 0, 0, 0, 0, 0])
  const TraceOptionsDefault := TraceOptions(0)
  /** The tracestate built from an empty builder. */
  const TracestateDefault := Tracestate([])

  predicate WellFormed(t: TraceId) { |t.bytes| == TraceIdSize }
  predicate SpanIdWellFormed(s: SpanId) { |s.bytes| == SpanIdSize }

  predicate TraceIdValid(t: TraceId) { t != TraceIdInvalid }
  predicate SpanIdValid(s: SpanId) { s != SpanIdInvalid }

  /** A `SpanContextImpl`: all four fields are final. */
  datatype SpanContext = SpanContext(traceId: TraceId, spanId: SpanId, traceOptions: TraceOptions, tracestate: Tracestate)

  /** The argument of `equals`: another span context, any other object, or null. */
  datatype Object = SpanContextObject(context: SpanContext) | OtherObject | Null

  /** The four-argument `create`: the getters return the arguments. */
  function Create(traceId: TraceId, spanId: SpanId, traceOptions: TraceOptions, tracestate: Tracestate): (c: SpanContext)
    ensures c.traceId == traceId && c.spanId == spanId
    ensures c.traceOptions == traceOptions && c.tracestate == tracestate
  {
    SpanContext(traceId, spanId, traceOptions, tracestate)
  }

  /** The deprecated three-argument `create`: the default tracestate. */
  function CreateWithoutTracestate(traceId: TraceId, spanId: SpanId, traceOptions: TraceOptions): (c: SpanContext)
    ensures c.traceId == traceId && c.spanId == spanId
    ensures c.traceOptions == traceOptions && c.tracestate == TracestateDefault
  {
    Create(traceId, spanId, traceOptions, TracestateDefault)
  }

  /** The span context with both ids invalid, default options and the default tracestate. */
  const Invalid := Create(TraceIdInvalid, SpanIdInvalid, TraceOptionsDefault, TracestateDefault)

  predicate IsValid(c: SpanContext)
  {
    TraceIdValid(c.traceId) && SpanIdValid(c.spanId)
  }

  /** `equals`: the same trace id, span id and options; the tracestate is not compared. An
      identical reference has equal fields, so the `obj == this` shortcut gives the same answer. */
  predicate Equals(c: SpanContext, obj: Object)
  {
    match obj
    case SpanContextObject(that) =>
      c.traceId == that.traceId && c.spanId == that.spanId && c.traceOptions == that.traceOptions
    case _ => false
  }

  const Int32Modulus := 0x1_0000_0000

  /** Java `int` arithmetic: the value modulo 2^32, in [-2^31, 2^31). */
  function Int32(x: int): (r: int)
    ensures -0x8000_0000 <= r < 0x8000_0000
    ensures (r - x) % Int32Modulus == 0
  {
    var m := x % Int32Modulus;
    if m < 0x8000_0000 then m else m - Int32Modulus
  }

  /** `java.util.Arrays.hashCode(Object[])` given the element hashes: 31 times the hash of
      the elements before, plus the last, from 1, in `int` arithmetic. */
  function ArraysHashCode(hashes: seq<int>): (r: int)
    ensures -0x8000_0000 <= r < 0x8000_0000
  {
    if hashes == [] then 1
    else Int32(31 * ArraysHashCode(hashes[..|hashes| - 1]) + hashes[|hashes| - 1])
  }

  /** The `hashCode` of the collaborators, which are not part of this model. */
  datatype ComponentHashes = ComponentHashes(traceId: TraceId -> int, spanId: SpanId -> int, traceOptions: TraceOptions -> int)

  function HashCode(c: SpanContext, h: ComponentHashes): (r: int)
    ensures -0x8000_0000 <= r < 0x8000_0000
  {
    ArraysHashCode([h.traceId(c.traceId), h.spanId(c.spanId), h.traceOptions(c.traceOptions)])
  }

  /** A well-formed id is valid exactly when one of its bytes is not zero, so a context is
      valid exactly when both of its ids have a non-zero byte. */
  lemma IsValidNonZero(c: SpanContext)
    requires WellFormed(c.traceId) && SpanIdWellFormed(c.spanId)
    ensures IsValid(c) <==>
      (exists i :: 0 <= i < TraceIdSize && c.traceId.bytes[i] != 0)
      && (exists i :: 0 <= i < SpanIdSize && c.spanId.bytes[i] != 0)
  {
  }

  lemma InvalidIsNotValid()
    ensures !IsValid(Invalid)
    ensures WellFormed(Invalid.traceId) && SpanIdWellFormed(Invalid.spanId)
  {
  }

  /** `equals` holds exactly when the two contexts agree once the tracestate is disregarded. */
  lemma EqualsIgnoresOnlyTracestate(c: SpanContext, d: SpanContext)
    ensures Equals(c, SpanContextObject(d)) <==> c.(tracestate := d.tracestate) == d
  {
  }

  /** `equals` is false for null and for any object that is not a span context. */
  lemma EqualsOtherObjects(c: SpanContext, obj: Object)
    requires !obj.SpanContextObject?
    ensures !Equals(c, obj)
  {
  }

  /** `equals` is an equivalence relation on span contexts. */
  lemma EqualsEquivalence(c: SpanContext, d: SpanContext, e: SpanContext)
    ensures Equals(c, SpanContextObject(c))
    ensures Equals(c, SpanContextObject(d)) ==> Equals(d, SpanContextObject(c))
    ensures Equals(c, SpanContextObject(d)) && Equals(d, SpanContextObject(e)) ==> Equals(c, SpanContextObject(e))
  {
  }

  /** Two contexts that differ only in tracestate are equal, though not the same value. */
  lemma DifferentTracestatesEqual()
    ensures var c := CreateWithoutTracestate(TraceIdInvalid, SpanIdInvalid, TraceOptionsDefault);
      var d := Create(TraceIdInvalid, SpanIdInvalid, TraceOptionsDefault, Tracestate([("k", "v")]));
      Equals(c, SpanContextObject(d)) && c != d
  {
    var d := Create(TraceIdInvalid, SpanIdInvalid, TraceOptionsDefault, Tracestate([("k", "v")]));
    assert d.tracestate.entries != [];
  }

  /** Equal contexts have equal hash codes, whatever the collaborators' hash codes are. */
  lemma EqualsHashCode(c: SpanContext, d: SpanContext, h: ComponentHashes)
    requires Equals(c, SpanContextObject(d))
    ensures HashCode(c, h) == HashCode(d, h)
  {
  }

  /** The three-argument `create` is the four-argument one with the default tracestate, and
      it equals the four-argument one with any tracestate. */
  lemma CreateWithoutTracestateDefault(t: TraceId, s: SpanId, o: TraceOptions, ts: Tracestate)
    ensures CreateWithoutTracestate(t, s, o) == Create(t, s, o, TracestateDefault)
    ensures Equals(CreateWithoutTracestate(t, s, o), SpanContextObject(Create(t, s, o, ts)))
  {
  }

  /** The hash code of three elements, written out: ((31 + a) * 31 + b) * 31 + c in `int`
      arithmetic. */
  lemma {:induction false} ArraysHashCodeThree(a: int, b: int, c: int)
    ensures ArraysHashCode([a, b, c]) == Int32(29791 + 961 * a + 31 * b + c)
  {
    assert [a][..0] == [];
    assert [a, b][..1] == [a];
    assert [a, b, c][..2] == [a, b];
    var h1 := ArraysHashCode([a]);
    assert h1 == Int32(31 * ArraysHashCode([]) + a);
    Int32Step(h1, 31 + a, b);
    assert ArraysHashCode([a, b]) == Int32(31 * h1 + b);
    var h2 := ArraysHashCode([a, b]);
    assert h2 == Int32(961 + 31 * a + b);
    Int32Step(h2, 961 + 31 * a + b, c);
    assert ArraysHashCode([a, b, c]) == Int32(31 * h2 + c);
  }

  /** One step of the hash: a value congruent to `x` may stand for it. */
  lemma Int32Step(h: int, x: int, e: int)
    requires h == Int32(x)
    ensures Int32(31 * h + e) == Int32(31 * x + e)
  {
    var q := (h - x) / Int32Modulus;
    assert h - x == q * Int32Modulus;
    assert 31 * h + e == 31 * x + e + (31 * q) * Int32Modulus;
    ModAddMultiple(31 * x + e, 31 * q);
  }

  lemma ModAddMultiple(y: int, q: int)
    ensures (y + q * Int32Modulus) % Int32Modulus == y % Int32Modulus
  {
  }
}
