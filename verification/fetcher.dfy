/** `read_bounded` and `_Inflater`: reading a response body under a cap, whatever the chunking. */
module Fetcher {
  import opened Options

  type Byte = n: int | 0 <= n < 256
  type Bytes = seq<Byte>

  datatype Result<+T> = Ok(value: T) | Err(message: string)

  // ---------- Decoders ----------

  /** What a compression format makes of a prefix of a stream: its output so far, and whether it is still intact. */
  datatype Decoder = Decoder(decode: Bytes -> Bytes, intact: Bytes -> bool)

  /** The assumption made about zlib: more input only adds output, and a broken stream adds none. */
  ghost predicate Streaming(d: Decoder) {
    && d.decode([]) == [] && d.intact([])
    && forall a, b {:trigger Continues(a, b)} | Continues(a, b) ::
         d.decode(a) <= d.decode(b) && (!d.intact(a) ==> !d.intact(b) && d.decode(b) == d.decode(a))
  }

  ghost predicate Continues(start: Bytes, stream: Bytes) {
    start <= stream
  }

  function Take(n: nat, s: Bytes): (t: Bytes)
    ensures t <= s && |t| == if n < |s| then n else |s|
  {
    if n < |s| then s[..n] else s
  }

  /** A stream breaks a read of at most `limit` bytes only if fewer than that come out before the damage. */
  predicate Raises(d: Decoder, stream: Bytes, limit: nat) {
    !d.intact(stream) && |d.decode(stream)| < limit
  }

  /** `zlib.decompressobj`: `fed` has gone in, the first `produced` bytes of its decoding have come out. */
  class Decompressor {
    const decoder: Decoder
    var fed: Bytes
    var produced: nat
    var tailDropped: bool

    ghost predicate Valid() reads this {
      Streaming(decoder) && produced <= |decoder.decode(fed)|
    }

    constructor (decoder: Decoder)
      requires Streaming(decoder)
      ensures Valid() && this.decoder == decoder && fed == [] && produced == 0 && !tailDropped
    {
      this.decoder := decoder;
      fed, produced, tailDropped := [], 0, false;
    }

    /**
     * At most `maxLength` more bytes, where 0 means no limit at all. A call that returns as many as it may can leave
     * input unread; the caller that does not feed that input again may not call again.
     */
    method Decompress(chunk: Bytes, maxLength: nat) returns (r: Result<Bytes>)
      requires Valid() && !tailDropped
      modifies this
      ensures Valid()
      ensures fed == old(fed) + chunk && old(produced) <= |decoder.decode(fed)|
      ensures var available := decoder.decode(fed)[old(produced)..];
              if maxLength > 0 && |available| >= maxLength then r == Ok(Take(maxLength, available))
              else if decoder.intact(fed) then r == Ok(available)
              else r.Err?
      ensures r.Ok? ==>
                produced == old(produced) + |r.value| && tailDropped == (maxLength > 0 && |r.value| == maxLength)
    {
      assert Continues(old(fed), old(fed) + chunk);
      fed := fed + chunk;
      var available := decoder.decode(fed)[produced..];
      if maxLength > 0 && |available| >= maxLength {
        r := Ok(Take(maxLength, available));
        tailDropped := true;
      } else if decoder.intact(fed) {
        r := Ok(available);
      } else {
        return Err("zlib error");
      }
      produced := produced + |r.value|;
    }
  }

  /** `_Inflater`: a decompressor with at most one chance, on its first chunk, to fall back to another format. */
  class Inflater {
    var decompressor: Decompressor
    var fallback: Option<Decoder>

    ghost predicate Valid() reads this, decompressor {
      decompressor.Valid() && (fallback.Some? ==> Streaming(fallback.value) && decompressor.fed == [])
    }

    constructor (decoder: Decoder, fallback: Option<Decoder>)
      requires Streaming(decoder) && (fallback.Some? ==> Streaming(fallback.value))
      ensures Valid() && fresh(decompressor) && this.fallback == fallback
      ensures decompressor.decoder == decoder && decompressor.fed == [] && decompressor.produced == 0
      ensures !decompressor.tailDropped
    {
      decompressor := new Decompressor(decoder);
      this.fallback := fallback;
    }

    /** Exactly `stream` has gone in and `count` bytes have come out, with nothing dropped. */
    ghost predicate HasRead(stream: Bytes, count: nat) reads this, decompressor {
      Valid() && !decompressor.tailDropped && decompressor.fed == stream && decompressor.produced == count
    }

    /** The format the next chunk is decoded as. */
    function Effective(chunk: Bytes, maxLength: nat): Decoder
      reads this, decompressor
    {
      if fallback.Some? && Raises(decompressor.decoder, chunk, maxLength) then fallback.value
      else decompressor.decoder
    }

    method Inflate(chunk: Bytes, maxLength: nat) returns (r: Result<Bytes>)
      requires Valid() && !decompressor.tailDropped && maxLength >= 1
      modifies this, decompressor
      ensures Valid() && fallback == None
      ensures decompressor == old(decompressor) || fresh(decompressor)
      ensures decompressor.decoder == old(Effective(chunk, maxLength))
      ensures decompressor.fed == old(decompressor.fed) + chunk
      ensures old(decompressor.produced) <= |decompressor.decoder.decode(decompressor.fed)|
      ensures var available := decompressor.decoder.decode(decompressor.fed)[old(decompressor.produced)..];
              if |available| >= maxLength || decompressor.decoder.intact(decompressor.fed)
              then r == Ok(Take(maxLength, available))
              else r.Err?
      ensures r.Ok? ==> decompressor.produced == old(decompressor.produced) + |r.value|
      ensures r.Ok? ==> decompressor.tailDropped == (|r.value| == maxLength)
    {
      var next := fallback;
      fallback := None;
      if next.None? {
        r := decompressor.Decompress(chunk, maxLength);
        return r;
      }
      assert decompressor.produced == 0 && [] + chunk == chunk;
      r := decompressor.Decompress(chunk, maxLength);
      if r.Err? {
        decompressor := new Decompressor(next.value);
        r := decompressor.Decompress(chunk, maxLength);
      }
    }
  }

  // ---------- The closed form ----------

  datatype Formats = Formats(gzip: Decoder, zlib: Decoder, rawDeflate: Decoder)

  ghost predicate AllStreaming(formats: Formats) {
    Streaming(formats.gzip) && Streaming(formats.zlib) && Streaming(formats.rawDeflate)
  }

  /** The decoders for a content encoding (already stripped and in lower case): the main one and the fallback. */
  datatype Plan = Identity | Inflate(decoder: Decoder, fallback: Option<Decoder>) | Unsupported

  function PlanFor(encoding: string, formats: Formats): Plan {
    if encoding == "gzip" || encoding == "x-gzip" then Inflate(formats.gzip, None)
    else if encoding == "deflate" then Inflate(formats.zlib, Some(formats.rawDeflate))
    else if encoding == "" || encoding == "identity" then Identity
    else Unsupported
  }

  function Concat(chunks: seq<Bytes>): Bytes {
    if |chunks| == 0 then [] else Concat(chunks[..|chunks| - 1]) + chunks[|chunks| - 1]
  }

  /** What reading `raw` through `d` under the cap comes to. */
  function Bounded(d: Decoder, raw: Bytes, maxBytes: nat): Result<(Bytes, bool)> {
    var decoded := d.decode(Take(maxBytes, raw));
    if Raises(d, Take(maxBytes, raw), maxBytes + 1) then Err("zlib error")
    else Ok((Take(maxBytes, decoded), |raw| > maxBytes || |decoded| > maxBytes))
  }

  const IDENTITY := Decoder((raw: Bytes) => raw, (raw: Bytes) => true)

  /** The decoder a whole read uses: only a damaged first chunk of a `deflate` body selects the fallback. */
  function DecoderOf(plan: Plan, chunks: seq<Bytes>, maxBytes: nat): Decoder
    requires !plan.Unsupported?
  {
    if plan.Identity? then IDENTITY
    else if plan.fallback.Some? && |chunks| > 0 && Raises(plan.decoder, Take(maxBytes, chunks[0]), maxBytes + 1)
    then plan.fallback.value
    else plan.decoder
  }

  lemma IdentityStreams()
    ensures Streaming(IDENTITY)
  {
  }

  lemma {:induction false} ConcatPrefix(chunks: seq<Bytes>, i: nat)
    requires i <= |chunks|
    ensures Concat(chunks[..i]) <= Concat(chunks)
    decreases |chunks| - i
  {
    if i < |chunks| {
      ConcatPrefix(chunks, i + 1);
      assert chunks[..i + 1][..i] == chunks[..i];
    } else {
      assert chunks[..i] == chunks;
    }
  }

  /** The bytes the next chunk adds, and how they sit between what was read and the whole stream. */
  lemma NextChunk(d: Decoder, chunks: seq<Bytes>, i: nat, maxBytes: nat)
    requires Streaming(d) && i < |chunks| && |Concat(chunks[..i])| <= maxBytes
    ensures var before, read := Concat(chunks[..i]), Concat(chunks[..i + 1]);
            var capped := Take(maxBytes - |before|, chunks[i]);
            && read == before + chunks[i] && read <= Concat(chunks)
            && before + capped <= Take(maxBytes, Concat(chunks))
            && (if |read| > maxBytes then before + capped == Take(maxBytes, Concat(chunks))
                else before + capped == read)
            && d.decode(before) <= d.decode(before + capped)
  {
    assert chunks[..i + 1][..i] == chunks[..i];
    ConcatPrefix(chunks, i + 1);
    var before, read := Concat(chunks[..i]), Concat(chunks[..i + 1]);
    var capped := Take(maxBytes - |before|, chunks[i]);
    assert before + capped == Take(maxBytes, read);
    assert Continues(before, before + capped);
  }

  lemma TakeAfter(start: Bytes, whole: Bytes, n: nat)
    requires start <= whole
    ensures start + Take(n, whole[|start|..]) == Take(|start| + n, whole)
  {
  }

  /** Once a cap is exceeded the rest of the stream cannot change the result. */
  lemma CapReached(d: Decoder, fed: Bytes, raw: Bytes, maxBytes: nat, body: Bytes)
    requires Streaming(d) && fed <= Take(maxBytes, raw)
    requires body == Take(maxBytes + 1, d.decode(fed))
    requires |body| <= maxBytes ==> fed == Take(maxBytes, raw) && d.intact(fed) && |raw| > maxBytes
    ensures Bounded(d, raw, maxBytes) == Ok((Take(maxBytes, body), true))
  {
    var b := Take(maxBytes, raw);
    assert Continues(fed, b);
    assert Take(maxBytes, d.decode(b)) == Take(maxBytes, body);
  }

  ghost predicate Ready(inflater: Inflater?, stream: Bytes, count: nat)
    reads inflater, if inflater == null then {} else {inflater.decompressor}
  {
    inflater != null ==> inflater.HasRead(stream, count)
  }

  ghost function NextDecoder(inflater: Inflater?, chunk: Bytes, maxLength: nat): Decoder
    reads inflater, if inflater == null then {} else {inflater.decompressor}
  {
    if inflater == null then IDENTITY else inflater.Effective(chunk, maxLength)
  }

  /** One turn of the loop: the body after one more chunk, one byte over the cap at most. */
  method Extend(inflater: Inflater?, body: Bytes, capped: Bytes, maxBytes: nat, ghost before: Bytes, ghost d: Decoder)
    returns (r: Result<Bytes>)
    requires Streaming(d) && |body| <= maxBytes && |before + capped| <= maxBytes
    requires body == d.decode(before) && d.intact(before)
    requires Ready(inflater, before, |body|) && d == NextDecoder(inflater, capped, maxBytes + 1 - |body|)
    modifies inflater, if inflater == null then {} else {inflater.decompressor}
    ensures inflater != null ==> inflater.decompressor == old(inflater.decompressor) || fresh(inflater.decompressor)
    ensures if Raises(d, before + capped, maxBytes + 1) then r.Err?
            else r == Ok(Take(maxBytes + 1, d.decode(before + capped)))
    ensures r.Ok? && |r.value| <= maxBytes ==>
              && r.value == d.decode(before + capped) && d.intact(before + capped)
              && Ready(inflater, before + capped, |r.value|)
              && forall chunk, n :: NextDecoder(inflater, chunk, n) == d
  {
    assert Continues(before, before + capped);
    if inflater == null {
      r := Ok(body + capped);
      assert r.value == before + capped;
    } else {
      var out := inflater.Inflate(capped, maxBytes + 1 - |body|);
      if out.Err? {
        return out;
      }
      TakeAfter(body, d.decode(before + capped), maxBytes + 1 - |body|);
      r := Ok(body + out.value);
    }
  }

  /** The read came to what the closed form says. */
  ghost predicate ReadsAs(d: Decoder, raw: Bytes, maxBytes: nat, r: Result<(Bytes, bool)>) {
    if Bounded(d, raw, maxBytes).Ok? then r == Bounded(d, raw, maxBytes) else r.Err?
  }

  /** The result depends on the chunks only through the bytes they add up to and the fallback decision. */
  method ReadBounded(encoding: string, formats: Formats, chunks: seq<Bytes>, maxBytes: nat)
    returns (r: Result<(Bytes, bool)>)
    requires AllStreaming(formats) && maxBytes >= 1
    ensures PlanFor(encoding, formats).Unsupported? ==> r.Err?
    ensures !PlanFor(encoding, formats).Unsupported? ==>
              var closed := Bounded(DecoderOf(PlanFor(encoding, formats), chunks, maxBytes), Concat(chunks), maxBytes);
              if closed.Ok? then r == closed else r.Err?
    ensures encoding == "gzip" || encoding == "x-gzip" ==> ReadsAs(formats.gzip, Concat(chunks), maxBytes, r)
    ensures encoding == "deflate" ==>
              if |chunks| > 0 && var first := Take(maxBytes, chunks[0]);
                                 !formats.zlib.intact(first) && |formats.zlib.decode(first)| <= maxBytes
              then ReadsAs(formats.rawDeflate, Concat(chunks), maxBytes, r)
              else ReadsAs(formats.zlib, Concat(chunks), maxBytes, r)
    ensures encoding == "" || encoding == "identity" ==>
              r == Ok((Take(maxBytes, Concat(chunks)), |Concat(chunks)| > maxBytes))
    ensures encoding !in ["gzip", "x-gzip", "deflate", "", "identity"] ==> r.Err?
  {
    var plan := PlanFor(encoding, formats);
    if plan.Unsupported? {
      return Err("unsupported content-encoding");
    }
    r := ReadAs(plan, chunks, maxBytes);
  }

  /** The loop, once the decoder is chosen. */
  method ReadAs(plan: Plan, chunks: seq<Bytes>, maxBytes: nat) returns (r: Result<(Bytes, bool)>)
    requires !plan.Unsupported? && maxBytes >= 1
    requires plan.Inflate? ==> Streaming(plan.decoder) && (plan.fallback.Some? ==> Streaming(plan.fallback.value))
    ensures var closed := Bounded(DecoderOf(plan, chunks, maxBytes), Concat(chunks), maxBytes);
            if closed.Ok? then r == closed else r.Err?
  {
    ghost var d := DecoderOf(plan, chunks, maxBytes);
    IdentityStreams();
    var inflater: Inflater? := null;
    if plan.Inflate? {
      inflater := new Inflater(plan.decoder, plan.fallback);
    }
    var body: Bytes, rawBytes := [], 0;
    for i := 0 to |chunks|
      invariant rawBytes == |Concat(chunks[..i])| <= maxBytes
      invariant body == d.decode(Concat(chunks[..i])) && |body| <= maxBytes && d.intact(Concat(chunks[..i]))
      invariant inflater != null ==> fresh(inflater) && fresh(inflater.decompressor)
      invariant Ready(inflater, Concat(chunks[..i]), |body|)
      invariant i < |chunks| ==>
                  NextDecoder(inflater, Take(maxBytes - rawBytes, chunks[i]), maxBytes + 1 - |body|) == d
    {
      var chunk := chunks[i];
      var capped := Take(maxBytes - rawBytes, chunk);
      ghost var before, read := Concat(chunks[..i]), Concat(chunks[..i + 1]);
      NextChunk(d, chunks, i, maxBytes);
      rawBytes := rawBytes + |chunk|;
      var extended := Extend(inflater, body, capped, maxBytes, before, d);
      if extended.Err? {
        DamageIsFinal(d, before + capped, Concat(chunks), maxBytes);
        return Err(extended.message);
      }
      body := extended.value;
      if rawBytes > maxBytes || |body| > maxBytes {
        CapReached(d, before + capped, Concat(chunks), maxBytes, body);
        return Ok((Take(maxBytes, body), true));
      }
    }
    assert chunks[..|chunks|] == chunks;
    r := Ok((body, false));
  }

  lemma DamageIsFinal(d: Decoder, fed: Bytes, raw: Bytes, maxBytes: nat)
    requires Streaming(d) && fed <= Take(maxBytes, raw)
    requires Raises(d, fed, maxBytes + 1)
    ensures Bounded(d, raw, maxBytes).Err?
  {
    assert Continues(fed, Take(maxBytes, raw));
  }
}
