/**
  The registration preimage of an ingested artifact (store.rs of the artifact
  store): a domain, eight length-prefixed fields and two fixed-width indices.
 */
module Registration {
  import opened Prelude

  const U32_LIMIT := 0x1_0000_0000
  const U16_LIMIT := 0x1_0000

  predicate AreBytes(s: Bytes) {
    forall i :: 0 <= i < |s| ==> 0 <= s[i] < 256
  }

  /** What identifies one part of one remote artifact. */
  datatype Identity = Identity(
    tenant: Bytes, run: Bytes, invocation: Bytes, attempt: Bytes, originEvent: Bytes,
    tool: Bytes, task: Bytes, artifact: Bytes, artifactIndex: int, partIndex: int)

  const FIELDS := 8

  /** The text `stateknot.a2a-artifact-registration.v1` and a zero byte. */
  const REGISTRATION_DOMAIN: Bytes := [
    115, 116, 97, 116, 101, 107, 110, 111, 116, 46, 97, 50, 97, 45, 97, 114, 116, 105, 102, 97,
    99, 116, 45, 114, 101, 103, 105, 115, 116, 114, 97, 116, 105, 111, 110, 46, 118, 49, 0]

  /** The variable-length fields, in the order they are hashed. */
  function FieldsOf(id: Identity): (fs: seq<Bytes>)
    ensures |fs| == FIELDS
  {
    [id.tenant, id.run, id.invocation, id.attempt, id.originEvent, id.tool, id.task, id.artifact]
  }

  function FromFields(fs: seq<Bytes>, artifactIndex: int, partIndex: int): Identity
    requires |fs| == FIELDS
  {
    Identity(fs[0], fs[1], fs[2], fs[3], fs[4], fs[5], fs[6], fs[7], artifactIndex, partIndex)
  }

  predicate AllBytes(fs: seq<Bytes>) {
    forall i :: 0 <= i < |fs| ==> AreBytes(fs[i])
  }

  predicate IsIdentity(id: Identity) {
    AllBytes(FieldsOf(id)) && 0 <= id.artifactIndex < U16_LIMIT && 0 <= id.partIndex < U16_LIMIT
  }

  // ----- fixed-width integers -------------------------------------------------

  function BigEndian16(n: int): Bytes
    requires 0 <= n < U16_LIMIT
  {
    [n / 256, n % 256]
  }

  function BigEndian32(n: int): Bytes
    requires 0 <= n < U32_LIMIT
  {
    BigEndian16(n / U16_LIMIT) + BigEndian16(n % U16_LIMIT)
  }

  function Value16(s: Bytes): int
    requires |s| >= 2
  {
    s[0] * 256 + s[1]
  }

  function Value32(s: Bytes): int
    requires |s| >= 4
  {
    Value16(s) * U16_LIMIT + Value16(s[2..])
  }

  lemma Exact16(n: int, rest: Bytes)
    requires 0 <= n < U16_LIMIT
    ensures AreBytes(BigEndian16(n)) && Value16(BigEndian16(n) + rest) == n
  {}

  lemma Exact32(n: int, rest: Bytes)
    requires 0 <= n < U32_LIMIT
    ensures AreBytes(BigEndian32(n)) && |BigEndian32(n)| == 4 && Value32(BigEndian32(n) + rest) == n
  {
    var hi, lo := BigEndian16(n / U16_LIMIT), BigEndian16(n % U16_LIMIT);
    Exact16(n / U16_LIMIT, lo + rest);
    Exact16(n % U16_LIMIT, rest);
    assert BigEndian32(n) + rest == hi + (lo + rest);
    assert (hi + (lo + rest))[2..] == lo + rest;
  }

  lemma Canonical16(s: Bytes)
    requires |s| >= 2 && AreBytes(s)
    ensures 0 <= Value16(s) < U16_LIMIT && BigEndian16(Value16(s)) == s[..2]
  {}

  lemma Canonical32(s: Bytes)
    requires |s| >= 4 && AreBytes(s)
    ensures 0 <= Value32(s) < U32_LIMIT && BigEndian32(Value32(s)) == s[..4]
  {
    Canonical16(s);
    Canonical16(s[2..]);
    assert s[..4] == s[..2] + s[2..][..2];
  }

  // ----- encoding -------------------------------------------------------------

  predicate Bounded(fields: seq<Bytes>) {
    forall i :: 0 <= i < |fields| ==> |fields[i]| < U32_LIMIT
  }

  function Field(f: Bytes): Bytes
    requires |f| < U32_LIMIT
  {
    BigEndian32(|f|) + f
  }

  function Fields(fields: seq<Bytes>): Bytes
    requires Bounded(fields)
  {
    if fields == [] then [] else Field(fields[0]) + Fields(fields[1..])
  }

  /** The bytes hashed after the domain. */
  function Encode(id: Identity): Bytes
    requires IsIdentity(id) && Bounded(FieldsOf(id))
  {
    Fields(FieldsOf(id)) + (BigEndian16(id.artifactIndex) + BigEndian16(id.partIndex))
  }

  function Preimage(id: Identity): Bytes
    requires IsIdentity(id) && Bounded(FieldsOf(id))
  {
    REGISTRATION_DOMAIN + Encode(id)
  }

  /** `update_bounded_field`: refuses a field whose length needs more than 32 bits. */
  method UpdateBoundedField(hashed: Bytes, value: Bytes) returns (r: Option<Bytes>)
    ensures r == if |value| < U32_LIMIT then Some(hashed + Field(value)) else None
  {
    if |value| >= U32_LIMIT {
      return None;
    }
    var updated := hashed + BigEndian32(|value|);
    updated := updated + value;
    assert updated == hashed + Field(value);
    r := Some(updated);
  }

  /** `registration_identity`: feeds the fields to the hasher one by one. */
  method RegistrationPreimage(id: Identity) returns (r: Option<Bytes>)
    requires IsIdentity(id)
    ensures r == if Bounded(FieldsOf(id)) then Some(Preimage(id)) else None
  {
    var fields := FieldsOf(id);
    var hashed := REGISTRATION_DOMAIN;
    for k := 0 to FIELDS
      invariant Bounded(fields[..k]) && hashed == REGISTRATION_DOMAIN + Fields(fields[..k])
    {
      var next := UpdateBoundedField(hashed, fields[k]);
      if next.None? {
        return None;
      }
      FieldsSnoc(fields, k);
      Associates(REGISTRATION_DOMAIN, Fields(fields[..k]), Field(fields[k]));
      hashed := next.value;
    }
    assert fields[..FIELDS] == fields;
    hashed := hashed + BigEndian16(id.artifactIndex);
    hashed := hashed + BigEndian16(id.partIndex);
    assert hashed == Preimage(id);
    r := Some(hashed);
  }

  lemma {:induction false} FieldsSnoc(fields: seq<Bytes>, k: nat)
    requires k < |fields| && Bounded(fields[..k]) && |fields[k]| < U32_LIMIT
    ensures Bounded(fields[..k + 1]) && Fields(fields[..k + 1]) == Fields(fields[..k]) + Field(fields[k])
  {
    var longer := fields[..k + 1];
    if k == 0 {
      assert longer[1..] == [];
    } else {
      assert longer[1..] == fields[1..][..k];
      assert fields[..k][1..] == fields[1..][..k - 1];
      assert Bounded(fields[1..][..k - 1]);
      FieldsSnoc(fields[1..], k - 1);
    }
  }

  lemma Associates(a: Bytes, b: Bytes, c: Bytes)
    ensures (a + b) + c == a + (b + c)
  {}

  // ----- decoding -------------------------------------------------------------

  /** One field and what follows it. */
  function TakeField(s: Bytes): Option<(Bytes, Bytes)> {
    if |s| < 4 || Value32(s) < 0 || |s| < 4 + Value32(s) then None
    else Some((s[4..4 + Value32(s)], s[4 + Value32(s)..]))
  }

  lemma FieldDecodes(f: Bytes, rest: Bytes)
    requires |f| < U32_LIMIT
    ensures TakeField(Field(f) + rest) == Some((f, rest))
  {
    var prefix := BigEndian32(|f|);
    Associates(prefix, f, rest);
    Exact32(|f|, f + rest);
    var s := prefix + (f + rest);
    assert s[4..4 + |f|] == f;
    assert s[4 + |f|..] == rest;
  }

  lemma FieldTaken(s: Bytes)
    requires AreBytes(s) && TakeField(s).Some?
    ensures var (f, rest) := TakeField(s).value;
            |f| < U32_LIMIT && AreBytes(f) && AreBytes(rest) && Field(f) + rest == s
  {
    Canonical32(s);
    var n := Value32(s);
    assert s == (s[..4] + s[4..4 + n]) + s[4 + n..];
  }

  datatype Parsed = Parsed(fields: seq<Bytes>, rest: Bytes)

  function TakeFields(s: Bytes, count: nat): Option<Parsed> {
    if count == 0 then Some(Parsed([], s))
    else
      var first := TakeField(s);
      if first.None? then None
      else
        var tail := TakeFields(first.value.1, count - 1);
        if tail.None? then None else Some(Parsed([first.value.0] + tail.value.fields, tail.value.rest))
  }

  function Decode(s: Bytes): Option<Identity> {
    var parsed := TakeFields(s, FIELDS);
    if parsed.None? || |parsed.value.rest| != 4 || |parsed.value.fields| != FIELDS then None
    else
      var rest := parsed.value.rest;
      Some(FromFields(parsed.value.fields, Value16(rest), Value16(rest[2..])))
  }

  lemma {:induction false} FieldsDecode(fields: seq<Bytes>, rest: Bytes)
    requires Bounded(fields)
    ensures TakeFields(Fields(fields) + rest, |fields|) == Some(Parsed(fields, rest))
  {
    if fields == [] {
      assert Fields(fields) + rest == rest;
    } else {
      var tail := Fields(fields[1..]);
      Associates(Field(fields[0]), tail, rest);
      FieldDecodes(fields[0], tail + rest);
      FieldsDecode(fields[1..], rest);
      assert [fields[0]] + fields[1..] == fields;
    }
  }

  /** Decoding recovers every field and both indices. */
  lemma {:induction false} DecodesEncoded(id: Identity)
    requires IsIdentity(id) && Bounded(FieldsOf(id))
    ensures Decode(Encode(id)) == Some(id)
  {
    var a, p := BigEndian16(id.artifactIndex), BigEndian16(id.partIndex);
    FieldsDecode(FieldsOf(id), a + p);
    Exact16(id.artifactIndex, p);
    Exact16(id.partIndex, []);
    assert (a + p)[2..] == p && p + [] == p;
  }

  /** Two requests with different identity fields never share a preimage. */
  lemma {:induction false} PreimageInjective(x: Identity, y: Identity)
    requires IsIdentity(x) && Bounded(FieldsOf(x)) && IsIdentity(y) && Bounded(FieldsOf(y))
    ensures Preimage(x) == Preimage(y) <==> x == y
  {
    if Preimage(x) == Preimage(y) {
      var n := |REGISTRATION_DOMAIN|;
      assert Preimage(x)[n..] == Encode(x);
      assert Preimage(y)[n..] == Encode(y);
      DecodesEncoded(x);
      DecodesEncoded(y);
    }
  }

  lemma {:induction false} TakenFields(s: Bytes, count: nat)
    requires AreBytes(s) && TakeFields(s, count).Some?
    ensures var parsed := TakeFields(s, count).value;
            && |parsed.fields| == count && Bounded(parsed.fields)
            && AllBytes(parsed.fields) && AreBytes(parsed.rest)
            && Fields(parsed.fields) + parsed.rest == s
  {
    if count > 0 {
      FieldTaken(s);
      var (first, after) := TakeField(s).value;
      TakenFields(after, count - 1);
      var tail := TakeFields(after, count - 1).value;
      assert ([first] + tail.fields)[1..] == tail.fields;
      Associates(Field(first), Fields(tail.fields), tail.rest);
    }
  }

  /** Every decodable preimage is the encoding of what it decodes to. */
  lemma {:induction false} EncodesDecoded(s: Bytes)
    requires AreBytes(s) && Decode(s).Some?
    ensures var id := Decode(s).value; IsIdentity(id) && Bounded(FieldsOf(id)) && Encode(id) == s
  {
    TakenFields(s, FIELDS);
    var parsed := TakeFields(s, FIELDS).value;
    var rest := parsed.rest;
    Canonical16(rest);
    Canonical16(rest[2..]);
    assert rest == rest[..2] + rest[2..][..2];
    assert FieldsOf(Decode(s).value) == parsed.fields;
  }
}
