/**
  Multipart staging and verified reads (store.rs of the artifact store).

  Every call to the object store may fail after taking effect, before it, or
  with its acknowledgement lost, unless the store is faultless. A SHA-256 state is the sequence of bytes fed to
  it, so that two digests are equal exactly when the bytes are.
 */
module Staging {
  import opened Prelude

  type Location = int

  datatype ContentDigest = Sha256(bytes: Bytes)

  // ----- chunks ---------------------------------------------------------------

  function Flatten(parts: seq<Bytes>): Bytes {
    if parts == [] then [] else Flatten(parts[..|parts| - 1]) + parts[|parts| - 1]
  }

  lemma FlattenSnoc(parts: seq<Bytes>, part: Bytes)
    ensures Flatten(parts + [part]) == Flatten(parts) + part
  {}

  lemma MoveOver(buffer: Bytes, rest: Bytes, n: nat)
    requires n <= |rest|
    ensures buffer + rest == (buffer + rest[..n]) + rest[n..]
  {}

  lemma SendOver(sent: Bytes, part: Bytes, rest: Bytes)
    ensures sent + (part + rest) == (sent + part) + ([] + rest)
  {}

  lemma Received(sent: Bytes, buffer: Bytes, bytes: Bytes)
    ensures (sent + buffer) + bytes == sent + (buffer + bytes)
    ensures buffer + [] == buffer
  {}

  predicate FullParts(parts: seq<Bytes>, size: nat) {
    forall i :: 0 <= i < |parts| ==> |parts[i]| == size
  }

  /** Parts of exactly `size` bytes, except a last one that may be shorter but
      is not empty. */
  predicate WellSized(parts: seq<Bytes>, size: nat) {
    && parts != []
    && FullParts(parts[..|parts| - 1], size)
    && 0 < |parts[|parts| - 1]| <= size
  }

  lemma {:induction false} FullLength(parts: seq<Bytes>, size: nat)
    requires FullParts(parts, size) && parts != []
    ensures |Flatten(parts)| >= size
  {}

  lemma Sized(parts: seq<Bytes>, tail: Bytes, size: nat)
    requires FullParts(parts, size) && parts != [] && 0 < size && |tail| <= size
    ensures WellSized(parts, size)
    ensures tail != [] ==> WellSized(parts + [tail], size)
    ensures tail == [] ==> Flatten(parts) + tail == Flatten(parts)
  {}

  /** Two stores agree everywhere but at one location. */
  ghost predicate SameElsewhere(a: map<Location, Bytes>, b: map<Location, Bytes>, location: Location) {
    forall l :: l != location ==> (l in a <==> l in b) && (l in a ==> a[l] == b[l])
  }

  // ----- the object store -----------------------------------------------------

  /** What becomes of a call: nothing is acknowledged that did not happen. */
  method Fate(faultless: bool) returns (happens: bool, acknowledged: bool)
    ensures acknowledged ==> happens
    ensures faultless ==> acknowledged
  {
    happens, acknowledged := *, *;
    happens := faultless || happens;
    acknowledged := faultless || (happens && acknowledged);
  }

  class MultipartUpload {
    /** Every call takes effect and is acknowledged. */
    const faultless: bool
    var parts: seq<Bytes>

    constructor (faultless: bool)
      ensures parts == [] && this.faultless == faultless
    {
      this.faultless, parts := faultless, [];
    }

    method PutPart(part: Bytes) returns (ok: bool)
      modifies this
      ensures parts == old(parts) || parts == old(parts) + [part]
      ensures ok ==> parts == old(parts) + [part]
      ensures faultless ==> ok
    {
      var happens, acknowledged := Fate(faultless);
      if happens {
        parts := parts + [part];
      }
      ok := acknowledged;
    }

    method Abort() returns (ok: bool)
      modifies this
      ensures parts == old(parts) || parts == []
      ensures ok ==> parts == []
      ensures faultless ==> ok
    {
      var happens, acknowledged := Fate(faultless);
      if happens {
        parts := [];
      }
      ok := acknowledged;
    }
  }

  class ObjectStore {
    const faultless: bool
    var objects: map<Location, Bytes>

    constructor (faultless: bool)
      ensures objects == map[] && this.faultless == faultless
    {
      this.faultless, objects := faultless, map[];
    }

    /** Create-only put. */
    method PutCreate(location: Location, bytes: Bytes) returns (ok: bool)
      modifies this
      ensures objects == old(objects) || (location !in old(objects) && objects == old(objects)[location := bytes])
      ensures ok ==> location !in old(objects) && objects == old(objects)[location := bytes]
      ensures faultless && location !in old(objects) ==> ok
    {
      var happens, acknowledged := Fate(faultless);
      if location in objects {
        return false;
      }
      if happens {
        objects := objects[location := bytes];
      }
      ok := acknowledged;
    }

    method CreateMultipart() returns (upload: MultipartUpload?)
      ensures upload != null ==> fresh(upload) && upload.parts == [] && upload.faultless == faultless
      ensures faultless ==> upload != null
    {
      var _, acknowledged := Fate(faultless);
      upload := null;
      if acknowledged {
        upload := new MultipartUpload(faultless);
      }
    }

    /** Completion replaces the object at its location by the joined parts. */
    method Complete(upload: MultipartUpload, location: Location) returns (ok: bool)
      modifies this
      ensures objects == old(objects) || objects == old(objects)[location := Flatten(upload.parts)]
      ensures ok ==> objects == old(objects)[location := Flatten(upload.parts)]
      ensures faultless ==> ok
    {
      var happens, acknowledged := Fate(faultless);
      if happens {
        objects := objects[location := Flatten(upload.parts)];
      }
      ok := acknowledged;
    }

    method Delete(location: Location) returns (ok: bool)
      modifies this
      ensures objects == old(objects) || objects == old(objects) - {location}
      ensures ok ==> objects == old(objects) - {location}
      ensures faultless ==> ok
    {
      var happens, acknowledged := Fate(faultless);
      if happens {
        objects := objects - {location};
      }
      ok := acknowledged;
    }
  }

  datatype UploadedObject = UploadedObject(byteLength: int, digest: ContentDigest)

  // ----- the staging writer ---------------------------------------------------

  class StagingWriter {
    const store: ObjectStore
    const location: Location
    const chunkSize: nat
    var buffer: Bytes
    var upload: MultipartUpload?
    /** The bytes fed to the hasher. */
    var hashed: Bytes
    var byteLength: int
    /** Cleanups that were not acknowledged. */
    var cleanupFailures: nat

    ghost predicate PartsValid()
      reads this, upload
    {
      && 0 < chunkSize
      && (upload != null ==>
            upload.parts != [] && FullParts(upload.parts, chunkSize) && upload.faultless == store.faultless)
    }

    /** Full parts went out, less than one part is buffered, and together they
        are the bytes received. */
    ghost predicate Valid()
      reads this, upload
    {
      && PartsValid()
      && |buffer| < chunkSize
      && byteLength == |hashed| <= U64_MAX
      && hashed == Uploaded() + buffer
    }

    ghost function Uploaded(): Bytes
      reads this, upload
    {
      if upload == null then [] else Flatten(upload.parts)
    }

    constructor (store: ObjectStore, location: Location, chunkSize: nat)
      requires 0 < chunkSize
      ensures Valid() && hashed == [] && upload == null
      ensures this.store == store && this.location == location && this.chunkSize == chunkSize
    {
      this.store, this.location, this.chunkSize := store, location, chunkSize;
      buffer, upload, hashed, byteLength, cleanupFailures := [], null, [], 0, 0;
    }

    /** `abort`: gives up the upload, if there is one, and counts it when that is
        not certain. */
    method Abort()
      modifies this`cleanupFailures, upload
      ensures Uploaded() == old(Uploaded()) || Uploaded() == []
      ensures cleanupFailures == old(cleanupFailures) ==> Uploaded() == []
      ensures old(cleanupFailures) <= cleanupFailures <= old(cleanupFailures) + 1
      ensures upload == null || upload.faultless ==> cleanupFailures == old(cleanupFailures)
    {
      if upload != null {
        var ok := upload.Abort();
        if !ok {
          cleanupFailures := cleanupFailures + 1;
        }
      }
    }

    /** `delete_completed_object`: an ambiguous object is removed, or counted when
        that is not certain. */
    method DeleteCompleted()
      modifies this`cleanupFailures, store
      ensures store.objects == old(store.objects) || store.objects == old(store.objects) - {location}
      ensures cleanupFailures == old(cleanupFailures) ==> location !in store.objects
      ensures old(cleanupFailures) <= cleanupFailures <= old(cleanupFailures) + 1
      ensures store.faultless ==> cleanupFailures == old(cleanupFailures)
    {
      var ok := store.Delete(location);
      if !ok {
        cleanupFailures := cleanupFailures + 1;
      }
    }

    /** Sends the filled buffer as one part, creating the upload first if this
        is the first one. */
    method SendPart() returns (ok: bool)
      requires PartsValid() && |buffer| == chunkSize
      modifies this, upload
      ensures hashed == old(hashed) && byteLength == old(byteLength)
      ensures upload == old(upload) || fresh(upload)
      ensures ok ==> PartsValid() && buffer == [] && Uploaded() == old(Uploaded()) + old(buffer)
      ensures Uploaded() in [[], old(Uploaded()), old(Uploaded()) + old(buffer)]
      ensures store.faultless ==> ok
      ensures ok ==> cleanupFailures == old(cleanupFailures)
      ensures !ok && cleanupFailures == old(cleanupFailures) ==> Uploaded() == []
    {
      if upload == null {
        var created := store.CreateMultipart();
        if created == null {
          return false;
        }
        upload := created;
      }
      ghost var before := upload.parts;
      var part := buffer;
      buffer := [];
      FlattenSnoc(before, part);
      ok := upload.PutPart(part);
      if !ok {
        Abort();
      }
    }

    /** `push`: appends a fragment of any size, sending every part that fills. Even
        a failed push leaves only received bytes in the upload, in order, and a store
        failure leaves none unless it was counted. */
    method Push(bytes: Bytes) returns (ok: bool)
      requires Valid()
      modifies this, upload
      ensures ok ==> Valid() && hashed == old(hashed) + bytes
      ensures old(byteLength) + |bytes| > U64_MAX ==> !ok
      ensures ok ==> cleanupFailures == old(cleanupFailures)
      ensures Uploaded() <= old(hashed) + bytes
      ensures upload == old(upload) || fresh(upload)
      ensures store.faultless && old(byteLength) + |bytes| <= U64_MAX ==> ok
      ensures !ok && old(byteLength) + |bytes| <= U64_MAX && cleanupFailures == old(cleanupFailures) ==>
              Uploaded() == []
    {
      if byteLength + |bytes| > U64_MAX {
        return false;
      }
      Received(Uploaded(), buffer, bytes);
      byteLength := byteLength + |bytes|;
      hashed := hashed + bytes;
      var rest := bytes;
      while rest != []
        invariant PartsValid() && |buffer| < chunkSize
        invariant byteLength == |hashed| <= U64_MAX && hashed == old(hashed) + bytes
        invariant hashed == Uploaded() + (buffer + rest)
        invariant upload == old(upload) || fresh(upload)
        invariant cleanupFailures == old(cleanupFailures)
        decreases |rest|
      {
        var room := chunkSize - |buffer|;
        var copied := if room <= |rest| then room else |rest|;
        MoveOver(buffer, rest, copied);
        buffer := buffer + rest[..copied];
        rest := rest[copied..];
        if |buffer| == chunkSize {
          SendOver(Uploaded(), buffer, rest);
          ok := SendPart();
          if !ok {
            return false;
          }
        }
      }
      Received(Uploaded(), buffer, rest);
      ok := true;
    }

    /** `finish`: sends the tail and completes, or puts everything at once when
        no part ever filled. The stored object is exactly the bytes received. */
    method Finish() returns (r: Option<UploadedObject>)
      requires Valid()
      modifies this, upload, store
      ensures r.Some? ==> r.value == UploadedObject(|old(hashed)|, Sha256(old(hashed)))
      ensures r.Some? ==> store.objects == old(store.objects)[location := old(hashed)]
      ensures upload == old(upload) && (upload == null <==> |old(hashed)| < chunkSize)
      ensures r.Some? && upload == null ==> location !in old(store.objects)
      ensures r.Some? && upload != null ==> WellSized(upload.parts, chunkSize) && Flatten(upload.parts) == old(hashed)
      ensures SameElsewhere(old(store.objects), store.objects, location)
      ensures store.faultless && (upload != null || location !in old(store.objects)) ==> r.Some?
      ensures r.None? && cleanupFailures == old(cleanupFailures) ==>
              store.objects == old(store.objects) || location !in store.objects
      ensures r.None? && upload != null && cleanupFailures == old(cleanupFailures) ==> Uploaded() == []
      ensures store.faultless ==> cleanupFailures == old(cleanupFailures)
    {
      if upload != null {
        FullLength(upload.parts, chunkSize);
        Sized(upload.parts, buffer, chunkSize);
        if buffer != [] {
          FlattenSnoc(upload.parts, buffer);
          var tail := buffer;
          buffer := [];
          var sent := upload.PutPart(tail);
          if !sent {
            Abort();
            return None;
          }
        }
        var completed := store.Complete(upload, location);
        if !completed {
          Abort();
          DeleteCompleted();
          return None;
        }
      } else {
        assert hashed == buffer;
        var put := store.PutCreate(location, buffer);
        if !put {
          DeleteCompleted();
          return None;
        }
      }
      r := Some(UploadedObject(byteLength, Sha256(hashed)));
    }
  }

  // ----- staging a remote stream ----------------------------------------------

  /** What a stream delivers: a fragment, or a transport failure. */
  type Fragment = Option<Bytes>

  ghost predicate AllArrived(stream: seq<Fragment>) {
    forall i :: 0 <= i < |stream| ==> stream[i].Some?
  }

  function Payload(stream: seq<Fragment>): Bytes {
    if stream == [] then []
    else
      var last := stream[|stream| - 1];
      Payload(stream[..|stream| - 1]) + if last.Some? then last.value else []
  }

  lemma PayloadStep(stream: seq<Fragment>, k: nat)
    requires k < |stream| && stream[k].Some?
    ensures Payload(stream[..k + 1]) == Payload(stream[..k]) + stream[k].value
  {
    assert stream[..k + 1][..k] == stream[..k];
  }

  lemma {:induction false} PayloadPrefix(stream: seq<Fragment>, k: nat)
    requires k <= |stream|
    ensures |Payload(stream[..k])| <= |Payload(stream)|
    decreases |stream| - k
  {
    if k == |stream| {
      assert stream[..k] == stream;
    } else {
      assert stream[..k + 1][..k] == stream[..k];
      PayloadPrefix(stream, k + 1);
    }
  }

  /** Pushes one fragment, within the limit. */
  method Receive(writer: StagingWriter, fragment: Fragment, maximum: int) returns (ok: bool)
    requires writer.Valid() && 0 <= maximum <= U64_MAX
    modifies writer, writer.upload
    ensures writer.upload == old(writer.upload) || fresh(writer.upload)
    ensures ok ==> && writer.Valid() && fragment.Some?
                   && writer.hashed == old(writer.hashed) + fragment.value && |writer.hashed| <= maximum
    ensures writer.store.faultless && fragment.Some? && |old(writer.hashed)| + |fragment.value| <= maximum ==> ok
    ensures ok ==> writer.cleanupFailures == old(writer.cleanupFailures)
    ensures !ok && maximum < U64_MAX && writer.cleanupFailures == old(writer.cleanupFailures) ==>
            writer.Uploaded() == []
  {
    if fragment.None? {
      writer.Abort();
      return false;
    }
    var total := writer.byteLength + |fragment.value|;
    var saturated := if total > U64_MAX then U64_MAX else total;
    if saturated > maximum {
      writer.Abort();
      return false;
    }
    ok := writer.Push(fragment.value);
  }

  /** The receiving loop: pushes fragment after fragment. On a faultless store it
      stops only at a fragment that did not arrive or would pass the limit. When it
      stops, nothing stays uploaded unless that was counted, whenever the limit can
      be passed at all. */
  method Feed(writer: StagingWriter, stream: seq<Fragment>, maximum: int) returns (ok: bool)
    requires writer.Valid() && writer.hashed == [] && writer.upload == null && 0 <= maximum <= U64_MAX
    modifies writer
    ensures writer.upload == null || fresh(writer.upload)
    ensures ok ==> writer.Valid() && writer.hashed == Payload(stream) && AllArrived(stream)
    ensures ok ==> |Payload(stream)| <= maximum
    ensures writer.store.faultless && AllArrived(stream) && |Payload(stream)| <= maximum ==> ok
    ensures !ok && maximum < U64_MAX && writer.cleanupFailures == old(writer.cleanupFailures) ==>
            writer.Uploaded() == []
  {
    for k := 0 to |stream|
      invariant writer.Valid() && (writer.upload == null || fresh(writer.upload))
      invariant writer.hashed == Payload(stream[..k]) && |writer.hashed| <= maximum
      invariant writer.cleanupFailures == old(writer.cleanupFailures)
      invariant forall i :: 0 <= i < k ==> stream[i].Some?
    {
      if stream[k].Some? {
        PayloadStep(stream, k);
        PayloadPrefix(stream, k + 1);
      }
      ok := Receive(writer, stream[k], maximum);
      if !ok {
        return;
      }
    }
    assert stream[..|stream|] == stream;
    ok := true;
  }

  /** `stage_remote`: for any fragmentation of the stream, success leaves exactly
      its bytes at the staging location, within the limit and of the announced
      length; nothing else in the store changes. On a faultless store it succeeds
      whenever it can, and a refused stream leaves nothing behind. */
  method StageRemote(store: ObjectStore, location: Location, chunkSize: nat, stream: seq<Fragment>,
                     expected: Option<int>, maximum: int) returns (r: Option<UploadedObject>)
    requires 0 < chunkSize && 0 <= maximum <= U64_MAX
    modifies store
    ensures r.Some? ==>
            && AllArrived(stream) && |Payload(stream)| <= maximum
            && (expected.Some? ==> expected.value == |Payload(stream)|)
            && r.value == UploadedObject(|Payload(stream)|, Sha256(Payload(stream)))
            && store.objects == old(store.objects)[location := Payload(stream)]
    ensures SameElsewhere(old(store.objects), store.objects, location)
    ensures store.faultless ==>
            (r.Some? <==> && AllArrived(stream) && |Payload(stream)| <= maximum
                          && (expected.Some? ==> expected.value == |Payload(stream)|)
                          && (|Payload(stream)| < chunkSize ==> location !in old(store.objects)))
    ensures store.faultless && r.None? ==> store.objects == old(store.objects) || location !in store.objects
  {
    if expected.Some? && expected.value > maximum {
      return None;
    }
    var writer := new StagingWriter(store, location, chunkSize);
    var received := Feed(writer, stream, maximum);
    if !received {
      return None;
    }
    r := writer.Finish();
    if r.Some? && expected.Some? && expected.value != r.value.byteLength {
      var _ := store.Delete(location);
      return None;
    }
  }

  // ----- verified reads -------------------------------------------------------

  /** `verify_object`: the stream has the expected length and digest, checked
      without keeping the bytes. */
  method VerifyObject(size: int, stream: seq<Fragment>, expectedLength: int, expectedDigest: ContentDigest)
    returns (ok: bool)
    requires 0 <= expectedLength <= U64_MAX
    ensures ok <==> && size == expectedLength && AllArrived(stream) && |Payload(stream)| == expectedLength
                    && Sha256(Payload(stream)) == expectedDigest
  {
    if size != expectedLength {
      return false;
    }
    var observed := 0;
    var hashed: Bytes := [];
    for k := 0 to |stream|
      invariant hashed == Payload(stream[..k]) && observed == |hashed| <= expectedLength
      invariant forall i :: 0 <= i < k ==> stream[i].Some?
    {
      if stream[k].None? {
        return false;
      }
      PayloadStep(stream, k);
      PayloadPrefix(stream, k + 1);
      if observed + |stream[k].value| > U64_MAX {
        return false;
      }
      observed := observed + |stream[k].value|;
      if observed > expectedLength {
        return false;
      }
      hashed := hashed + stream[k].value;
    }
    assert stream[..|stream|] == stream;
    ok := observed == expectedLength && Sha256(hashed) == expectedDigest;
  }

  /** `read_verified_bytes`: returns the bytes only once length and digest hold. */
  method ReadVerified(size: int, stream: seq<Fragment>, expectedLength: int, expectedDigest: ContentDigest,
                      maximum: int)
    returns (r: Option<Bytes>)
    requires 0 <= expectedLength <= U64_MAX
    ensures r == if && expectedLength <= maximum && size == expectedLength && AllArrived(stream)
                    && |Payload(stream)| == expectedLength && Sha256(Payload(stream)) == expectedDigest
                 then Some(Payload(stream)) else None
  {
    if expectedLength > maximum || size != expectedLength {
      return None;
    }
    var output: Bytes := [];
    for k := 0 to |stream|
      invariant output == Payload(stream[..k])
      invariant forall i :: 0 <= i < k ==> stream[i].Some?
    {
      if stream[k].None? {
        return None;
      }
      PayloadStep(stream, k);
      PayloadPrefix(stream, k + 1);
      var total := |output| + |stream[k].value|;
      var next := if total > U64_MAX then U64_MAX else total;
      if next > expectedLength || next > maximum {
        return None;
      }
      output := output + stream[k].value;
    }
    assert stream[..|stream|] == stream;
    if |output| != expectedLength || Sha256(output) != expectedDigest {
      return None;
    }
    r := Some(output);
  }
}
