/** Fetch-through: `getfile(relpath, httpget, chunksize)`.

    Cached bytes are served with their stored headers and no transport.
    Otherwise the response is read in chunks, its length is checked against
    the declared `content-length` and its md5 against the entry's declared
    md5, and only then are the bytes, their size, their md5 and the headers
    committed. A failed fetch leaves the store as it was. The HTTP transport
    is not modelled: the response it would return is a parameter, `None`
    standing for a call without transport. */
module Fetch {
  import opened Wrappers
  import opened Strings
  import opened Filestore

  const StatusOk: int := 200

  /** What the transport returns for the entry's url. */
  datatype Response = Response(status: int, headers: Headers, body: Bytes)

  datatype FetchError =
    | NotFound(relpath: string)
    | NoTransport(relpath: string)
    | BadStatus(status: int)
    | SizeMismatch(declared: nat, received: nat)
    | Md5Mismatch(relpath: string, expected: string, got: string)
  {
    /** The failures raised as `ValueError`. */
    predicate IsValueError()
    {
      SizeMismatch? || Md5Mismatch?
    }
  }

  /** The text of the raised error. */
  function Message(e: FetchError): string
  {
    match e
    case NotFound(relpath) => relpath + " not found"
    case NoTransport(relpath) => relpath + " is not cached and there is no transport"
    case BadStatus(status) =>
      "unexpected status " + (if status < 0 then "-" + NatToString(-status) else NatToString(status))
    case SizeMismatch(declared, received) =>
      "content-length " + NatToString(declared) + ", got " + NatToString(received) + " bytes"
    case Md5Mismatch(relpath, expected, got) =>
      relpath + ": got md5 " + got + ", expected " + expected
  }

  /** What `getfile` hands back: the headers and the bytes. */
  datatype Served = Served(headers: Headers, content: Bytes)

  /** The store after `getfile` together with its outcome. */
  datatype Fetched = Fetched(store: FileStore, result: Result<Served, FetchError>)

  type ChunkSize = n: nat | n > 0 witness 1

  /** The received bytes agree with the declared size, when one is declared. */
  predicate LengthAgrees(headers: Headers, received: Bytes)
  {
    DeclaredLength(headers).None? || DeclaredLength(headers) == Some(|received|)
  }

  /** The received bytes agree with the entry's md5, when one is declared. */
  predicate Md5Agrees(e: FileEntry, received: Bytes, md5: Digest)
  {
    e.md5 == "" || md5(received) == e.md5
  }

  /** The size check, then the md5 check; `None` when both pass. */
  function Verify(relpath: string, e: FileEntry, headers: Headers, received: Bytes, md5: Digest)
    : (r: Option<FetchError>)
    ensures r.None? <==> LengthAgrees(headers, received) && Md5Agrees(e, received, md5)
    ensures !LengthAgrees(headers, received) ==>
      r == Some(SizeMismatch(DeclaredLength(headers).value, |received|))
    ensures LengthAgrees(headers, received) && !Md5Agrees(e, received, md5) ==>
      r == Some(Md5Mismatch(relpath, e.md5, md5(received)))
    ensures r.Some? ==> r.value.IsValueError()
  {
    var declared := DeclaredLength(headers);
    if declared.Some? && declared.value != |received| then
      Some(SizeMismatch(declared.value, |received|))
    else if e.md5 != "" && md5(received) != e.md5 then
      Some(Md5Mismatch(relpath, e.md5, md5(received)))
    else
      None
  }

  /** The response headers with `content-length` set to the received length. */
  function ServedHeaders(headers: Headers, received: Bytes): Headers
  {
    headers[ContentLengthHeader := NatToString(|received|)]
  }

  /** Verifies the fully received bytes and commits them on success. */
  function Commit(fs: FileStore, relpath: string, headers: Headers, received: Bytes, md5: Digest)
    : Fetched
  {
    var e := Lookup(fs, relpath);
    match Verify(relpath, e, headers, received, md5)
    case Some(err) => Fetched(fs, Err(err))
    case None =>
      var served := ServedHeaders(headers, received);
      var e' := e.(content := Some(received), size := Some(|received|), md5 := md5(received),
                   headers := served);
      Fetched(Put(fs, relpath, e'), Ok(Served(served, received)))
  }

  /** `getfile` as a function of the state and the response. */
  function GetFileSpec(fs: FileStore, relpath: string, httpget: Option<Response>, md5: Digest)
    : (r: Fetched)
    // nothing changes on failure: no partial bytes, no metadata
    ensures r.result.Err? ==> r.store == fs
    ensures relpath !in fs.entries ==> r.result == Err(NotFound(relpath))
    // cached bytes are served with their stored headers, whatever the transport
    ensures FileExists(fs, relpath) ==>
      && r.store == fs
      && r.result == Ok(Served(Lookup(fs, relpath).headers, Lookup(fs, relpath).content.value))
    // whatever is served is what the store now holds
    ensures r.result.Ok? ==>
      && FileExists(r.store, relpath)
      && Lookup(r.store, relpath).content == Some(r.result.value.content)
      && Lookup(r.store, relpath).headers == r.result.value.headers
    // a fresh fetch serves exactly the streamed bytes and records their size and md5
    ensures r.result.Ok? && !FileExists(fs, relpath) ==>
      && httpget.Some?
      && r.result.value.content == httpget.value.body
      && Lookup(r.store, relpath).size == Some(|httpget.value.body|)
      && Lookup(r.store, relpath).md5 == md5(httpget.value.body)
      && Lookup(r.store, relpath).url == Lookup(fs, relpath).url
      && DeclaredLength(r.result.value.headers) == Some(|httpget.value.body|)
      && (forall h :: h in httpget.value.headers && h != ContentLengthHeader ==>
            h in r.result.value.headers && r.result.value.headers[h] == httpget.value.headers[h])
    // a fetch succeeds exactly when both checks pass
    ensures relpath in fs.entries && !FileExists(fs, relpath) && httpget.Some?
            && httpget.value.status == StatusOk ==>
      (r.result.Ok? <==>
         LengthAgrees(httpget.value.headers, httpget.value.body)
         && Md5Agrees(Lookup(fs, relpath), httpget.value.body, md5))
    // without a transport an uncached entry cannot be served
    ensures relpath in fs.entries && !FileExists(fs, relpath) && httpget.None? ==>
      r.result == Err(NoTransport(relpath))
    // a response other than 200 is never committed
    ensures relpath in fs.entries && !FileExists(fs, relpath) && httpget.Some?
            && httpget.value.status != StatusOk ==>
      r.result == Err(BadStatus(httpget.value.status))
    // a failed length check is a size mismatch, checked before the md5
    ensures relpath in fs.entries && !FileExists(fs, relpath) && httpget.Some?
            && httpget.value.status == StatusOk
            && !LengthAgrees(httpget.value.headers, httpget.value.body) ==>
      r.result == Err(SizeMismatch(DeclaredLength(httpget.value.headers).value, |httpget.value.body|))
    // a failed md5 check names the entry's md5 and the bytes' md5
    ensures relpath in fs.entries && !FileExists(fs, relpath) && httpget.Some?
            && httpget.value.status == StatusOk
            && LengthAgrees(httpget.value.headers, httpget.value.body)
            && !Md5Agrees(Lookup(fs, relpath), httpget.value.body, md5) ==>
      r.result == Err(Md5Mismatch(relpath, Lookup(fs, relpath).md5, md5(httpget.value.body)))
    // an md5 failure reports the md5 the entry declared
    ensures r.result.Err? && r.result.error.Md5Mismatch? ==>
      r.result.error.expected == Lookup(fs, relpath).md5
    // a fresh fetch serves exactly the upstream header names plus `content-length`
    ensures r.result.Ok? && !FileExists(fs, relpath) ==>
      && httpget.Some?
      && r.result.value.headers.Keys == httpget.value.headers.Keys + {ContentLengthHeader}
      && r.result.value.headers[ContentLengthHeader] == NatToString(|httpget.value.body|)
    // the slot's url and egg fragment are never changed by a fetch
    ensures Lookup(r.store, relpath).url == Lookup(fs, relpath).url
    ensures Lookup(r.store, relpath).eggfragment == Lookup(fs, relpath).eggfragment
    ensures r.store.entries - {relpath} == fs.entries - {relpath}
    ensures r.store.attachments == fs.attachments
  {
    if relpath !in fs.entries then Fetched(fs, Err(NotFound(relpath)))
    else
      var e := fs.entries[relpath];
      if e.content.Some? then Fetched(fs, Ok(Served(e.headers, e.content.value)))
      else if httpget.None? then Fetched(fs, Err(NoTransport(relpath)))
      else if httpget.value.status != StatusOk then Fetched(fs, Err(BadStatus(httpget.value.status)))
      else
        var body := httpget.value.body;
        ParseNatToString(|body|);
        Commit(fs, relpath, httpget.value.headers, body, md5)
  }

  /** Reads a response stream in chunks of at most `chunksize` bytes,
      accumulating what arrives. */
  method ReadChunked(stream: Bytes, chunksize: ChunkSize) returns (received: Bytes)
    ensures received == stream
  {
    received := [];
    var pos := 0;
    while pos < |stream|
      invariant pos <= |stream|
      invariant received == stream[..pos]
      decreases |stream| - pos
    {
      var end := if |stream| - pos < chunksize then |stream| else pos + chunksize;
      var chunk := stream[pos..end];
      assert stream[..end] == stream[..pos] + chunk;
      received := received + chunk;
      pos := end;
    }
  }

  /** `getfile(relpath, httpget, chunksize)`: the chunked fetch computes the
      same outcome as `GetFileSpec`, whatever the chunk size. */
  method GetFile(fs: FileStore, relpath: string, httpget: Option<Response>, chunksize: ChunkSize,
                 md5: Digest)
    returns (r: Fetched)
    ensures r == GetFileSpec(fs, relpath, httpget, md5)
  {
    if relpath !in fs.entries {
      return Fetched(fs, Err(NotFound(relpath)));
    }
    var e := fs.entries[relpath];
    if e.content.Some? {
      return Fetched(fs, Ok(Served(e.headers, e.content.value)));
    }
    if httpget.None? {
      return Fetched(fs, Err(NoTransport(relpath)));
    }
    var response := httpget.value;
    if response.status != StatusOk {
      return Fetched(fs, Err(BadStatus(response.status)));
    }
    var received := ReadChunked(response.body, chunksize);
    r := Commit(fs, relpath, response.headers, received, md5);
  }

  /** After a successful fetch, `getfile` without transport serves the same
      headers and bytes and changes nothing. */
  lemma CachedAfterFetch(fs: FileStore, relpath: string, httpget: Option<Response>, md5: Digest,
                         md5': Digest)
    requires GetFileSpec(fs, relpath, httpget, md5).result.Ok?
    ensures var f := GetFileSpec(fs, relpath, httpget, md5);
      GetFileSpec(f.store, relpath, None, md5') == f
  {
  }

  /** A pushed file is served without transport: its bytes, and headers
      declaring its length. */
  lemma StoreServedWithoutTransport(fs: FileStore, user: string, index: string, basename: string,
                                    content: Bytes, md5: Digest, now: string, md5': Digest)
    ensures var r := Store(fs, user, index, basename, content, md5, now);
      var f := GetFileSpec(r.store, r.relpath, None, md5');
      && f.store == r.store
      && f.result.Ok?
      && f.result.value.content == content
      && DeclaredLength(f.result.value.headers) == Some(|content|)
  {
  }

  /** After `delete`, `getfile` reports the relpath as not found. */
  lemma DeletedNotFound(fs: FileStore, relpath: string, httpget: Option<Response>, md5: Digest)
    ensures GetFileSpec(Delete(fs, relpath), relpath, httpget, md5).result == Err(NotFound(relpath))
  {
  }

  /** The message of an md5 failure names the expected md5. */
  lemma Md5MismatchNamesExpected(relpath: string, expected: string, got: string)
    ensures Contains(Message(Md5Mismatch(relpath, expected, got)), expected)
  {
    var prefix := relpath + ": got md5 " + got + ", expected ";
    assert Message(Md5Mismatch(relpath, expected, got)) == prefix + expected + "";
    ContainsMiddle(prefix, expected, "");
  }

  /** A failed fetch of an uncached entry leaves it uncached. */
  lemma FailedFetchLeavesNoFile(fs: FileStore, relpath: string, httpget: Option<Response>,
                                md5: Digest)
    requires !FileExists(fs, relpath)
    requires GetFileSpec(fs, relpath, httpget, md5).result.Err?
    ensures !FileExists(GetFileSpec(fs, relpath, httpget, md5).store, relpath)
  {
  }

  /** `getfile` keeps every cached entry's size equal to its bytes' length. */
  lemma GetFileKeepsSizes(fs: FileStore, relpath: string, httpget: Option<Response>, md5: Digest)
    requires SizesMatch(fs)
    ensures SizesMatch(GetFileSpec(fs, relpath, httpget, md5).store)
  {
  }

  /** After bytes written to a slot are deleted with `file_delete`, a fetch
      whose length and md5 checks pass fills the slot again with the
      streamed bytes. */
  lemma RefetchAfterFileDelete(fs: FileStore, relpath: string, content: Bytes,
                               response: Response, md5: Digest)
    requires response.status == StatusOk
    requires LengthAgrees(response.headers, response.body)
    requires Md5Agrees(Lookup(fs, relpath), response.body, md5)
    ensures var fs1 := FileDelete(SetFileContent(fs, relpath, content), relpath);
      var f := GetFileSpec(fs1, relpath, Some(response), md5);
      && f.result == Ok(Served(ServedHeaders(response.headers, response.body), response.body))
      && FileExists(f.store, relpath)
      && Lookup(f.store, relpath).content == Some(response.body)
      && Lookup(f.store, relpath).url == Lookup(fs, relpath).url
  {
    WriteThenFileDelete(fs, relpath, content);
  }

  /** Mapping a link with a declared md5 again after its bytes were fetched
      keeps them: `getfile` without transport then serves what the fetch
      served. */
  lemma RemapAfterHashedFetch(fs: FileStore, stage: Links.Stage, link: Links.Link,
                              httpget: Option<Response>, md5: Digest, md5': Digest)
    requires Links.Md5(link) != ""
    requires var m := MapLink(fs, stage, link);
      GetFileSpec(m.store, m.relpath, httpget, md5).result.Ok?
    ensures var m := MapLink(fs, stage, link);
      var f := GetFileSpec(m.store, m.relpath, httpget, md5);
      var m2 := MapLink(f.store, stage, link);
      && m2.relpath == m.relpath
      && GetFileSpec(m2.store, m2.relpath, None, md5').result == f.result
  {
  }

  /** Mapping a hash-less link again after its bytes were fetched drops them:
      the fetch recorded the bytes' md5, the link declares none, so the
      declared md5 changed. */
  lemma RemapAfterUnhashedFetch(fs: FileStore, stage: Links.Stage, link: Links.Link,
                                response: Response, md5: Digest)
    requires Links.Md5(link) == ""
    requires !FileExists(fs, Links.Relpath(stage, link))
    requires md5(response.body) != ""
    requires var m := MapLink(fs, stage, link);
      GetFileSpec(m.store, m.relpath, Some(response), md5).result.Ok?
    ensures var m := MapLink(fs, stage, link);
      var f := GetFileSpec(m.store, m.relpath, Some(response), md5);
      && FileExists(f.store, m.relpath)
      && !FileExists(MapLink(f.store, stage, link).store, m.relpath)
  {
    var m := MapLink(fs, stage, link);
    var f := GetFileSpec(m.store, m.relpath, Some(response), md5);
    assert Lookup(f.store, m.relpath).md5 == md5(response.body);
    MapLinkChangedMd5Uncached(f.store, stage, link);
  }
}
