/** The file store scenarios of the test suite, one lemma each, starting from
    an empty store. Links are written out explicitly: `dir` is the URL up to
    the file name, and where a scenario relies on two links declaring
    different md5s, the md5s are parameters required to differ. */
module Scenarios {
  import opened Wrappers
  import opened Strings
  import opened Links
  import opened Filestore
  import opened Fetch

  /** `b"123"`, `b"1"`, `b"content"` and `b"hello"`. */
  const Bytes123: Bytes := [49, 50, 51]
  const Bytes1: Bytes := [49]
  const ContentBytes: Bytes := [99, 111, 110, 116, 101, 110, 116]
  const HelloBytes: Bytes := [104, 101, 108, 108, 111]

  const Md5Ones: string := "1111111111111111"
  const ZipDate: string := "Thu, 25 Nov 2010 20:00:27 GMT"

  /** The response headers of the fetch scenarios, declaring 3 bytes. */
  const Headers3: Headers := map[
    ContentLengthHeader := "3",
    LastModifiedHeader := ZipDate,
    "content-type" := "application/zip"]

  /** The same headers without any `content-length`. */
  const HeadersNoSize: Headers := map[
    LastModifiedHeader := ZipDate,
    "content-type" := "application/zip"]

  /** The fetch scenarios' headers declare three bytes. */
  lemma Headers3DeclaresThree()
    ensures DeclaredLength(Headers3) == Some(3)
    ensures NatToString(3) == "3"
  {
    ParseNatToString(3);
  }

  /** A mapped relpath ends in `suffix`, the link's basename after a `/`. */
  lemma MapLinkEndsWith(fs: FileStore, stage: Stage, link: Link, name: string, suffix: string)
    requires ValidStage(stage) && Sep !in Md5(link)
    requires Basename(link) == name && suffix == [Sep] + name
    ensures EndsWith(MapLink(fs, stage, link).relpath, suffix)
  {
    MapLinkBasename(fs, stage, link);
  }

  /** The relpath of `dir/pytest-1.2.zip#md5=h` ends in `/pytest-1.2.zip`. */
  lemma MappedZipEndsWith(stage: Stage, dir: string, h: string)
    requires ValidStage(stage) && FragSep !in dir && Sep !in h
    ensures var link := HashedPackageLink(dir, "pytest-1.2.zip", h);
      EndsWith(MapLink(EmptyStore, stage, link).relpath, "/pytest-1.2.zip")
  {
    var link := HashedPackageLink(dir, "pytest-1.2.zip", h);
    ZipNameFacts();
    HashedPackageLinkParts(dir, "pytest-1.2.zip", h);
    MapLinkEndsWith(EmptyStore, stage, link, "pytest-1.2.zip", "/pytest-1.2.zip");
  }

  /** `pytest-1.2.zip` is a single path segment without fragment. */
  lemma ZipNameFacts()
    ensures FragSep !in "pytest-1.2.zip" && Sep !in "pytest-1.2.zip"
    ensures [Sep] + "pytest-1.2.zip" == "/pytest-1.2.zip"
  {
  }

  /** `dir/name#md5=h`. */
  function HashedPackageLink(dir: string, name: string, h: string): Link
  {
    Link(dir + [Sep] + name + [FragSep] + Md5Key + h)
  }

  /** `dir/name`, a link without md5. */
  function PlainPackageLink(dir: string, name: string): Link
  {
    Link(dir + [Sep] + name)
  }

  /** The parts of `dir/name#md5=h`. */
  lemma HashedPackageLinkParts(dir: string, name: string, h: string)
    requires FragSep !in dir && FragSep !in name && Sep !in name
    ensures var link := HashedPackageLink(dir, name, h);
      && NoFrag(link) == dir + [Sep] + name
      && Md5(link) == h
      && Basename(link) == name
  {
    HashedLink(dir + [Sep] + name, h);
    LastSegmentAppend(dir, name);
  }

  /** The parts of `dir/name`. */
  lemma PlainPackageLinkParts(dir: string, name: string)
    requires FragSep !in dir && FragSep !in name && Sep !in name
    ensures var link := PlainPackageLink(dir, name);
      && NoFrag(link) == link.url
      && Md5(link) == ""
      && Basename(link) == name
  {
    PlainLink(dir + [Sep] + name);
    LastSegmentAppend(dir, name);
  }

  /** test_maplink_deterministic: mapping twice gives the same relpath, named
      after the link's basename. */
  lemma MaplinkDeterministic(stage: Stage, dir: string, h: string)
    requires ValidStage(stage) && FragSep !in dir && Sep !in h
    ensures var link := HashedPackageLink(dir, "pytest-1.2.zip", h);
      var m1 := MapLink(EmptyStore, stage, link);
      var m2 := MapLink(m1.store, stage, link);
      && m1.relpath == m2.relpath
      && EntryBasename(m1.relpath) == "pytest-1.2.zip"
  {
    var link := HashedPackageLink(dir, "pytest-1.2.zip", h);
    HashedPackageLinkParts(dir, "pytest-1.2.zip", h);
    MapLinkBasename(EmptyStore, stage, link);
  }

  /** test_maplink_splitmd5_issue78: the relpath's third- and second-last
      segments are `md5[:3]` and `md5[3:]`. */
  lemma MaplinkSplitMd5(stage: Stage, dir: string, h: string)
    requires ValidStage(stage) && FragSep !in dir && h != "" && Sep !in h
    ensures var link := HashedPackageLink(dir, "pytest-1.2.zip", h);
      var parts := Split(MapLink(EmptyStore, stage, link).relpath);
      && |parts| >= 3
      && parts[|parts| - 3] == Take(h, 3)
      && parts[|parts| - 2] == Drop(h, 3)
  {
    var link := HashedPackageLink(dir, "pytest-1.2.zip", h);
    HashedPackageLinkParts(dir, "pytest-1.2.zip", h);
    ShardedRelpath(stage, link);
  }

  /** test_maplink: neither mapping has bytes, the entries are equal, the
      relpath ends in `/pytest-1.2.zip` and the md5 is the link's. */
  lemma Maplink(stage: Stage, dir: string, h: string)
    requires ValidStage(stage) && FragSep !in dir && Sep !in h
    ensures var link := HashedPackageLink(dir, "pytest-1.2.zip", h);
      var m1 := MapLink(EmptyStore, stage, link);
      var m2 := MapLink(m1.store, stage, link);
      && !FileExists(m1.store, m1.relpath) && !FileExists(m2.store, m2.relpath)
      && m1.relpath == m2.relpath
      && Lookup(m1.store, m1.relpath) == Lookup(m2.store, m2.relpath)
      && EndsWith(m1.relpath, "/pytest-1.2.zip")
      && Lookup(m1.store, m1.relpath).md5 == h
  {
    var link := HashedPackageLink(dir, "pytest-1.2.zip", h);
    HashedPackageLinkParts(dir, "pytest-1.2.zip", h);
    MappedZipEndsWith(stage, dir, h);
    MapLinkIdempotent(EmptyStore, stage, link);
  }

  /** test_maplink_replaced_release_not_cached_yet: a new link for the same
      file name with a new md5 maps to an entry declaring the new md5. */
  lemma MaplinkReplacedNotCached(stage: Stage, dir: string, h1: string, h2: string)
    requires ValidStage(stage) && FragSep !in dir
    ensures var m1 := MapLink(EmptyStore, stage, HashedPackageLink(dir, "pytest-1.2.zip", h1));
      var m2 := MapLink(m1.store, stage, HashedPackageLink(dir, "pytest-1.2.zip", h2));
      && !FileExists(m1.store, m1.relpath)
      && Lookup(m1.store, m1.relpath).md5 == h1
      && Lookup(m2.store, m2.relpath).md5 == h2
  {
    HashedPackageLinkParts(dir, "pytest-1.2.zip", h1);
    HashedPackageLinkParts(dir, "pytest-1.2.zip", h2);
  }

  /** test_maplink_replaced_release_already_cached: after bytes were written
      for the old link, the new link's entry declares the new md5 and has no
      bytes. */
  lemma MaplinkReplacedAlreadyCached(stage: Stage, dir: string, h1: string, h2: string)
    requires ValidStage(stage) && FragSep !in dir
    requires h1 != "" && h2 != "" && h1 != h2 && Sep !in h1 && Sep !in h2
    ensures var m1 := MapLink(EmptyStore, stage, HashedPackageLink(dir, "pytest-1.2.zip", h1));
      var fs1 := SetFileContent(m1.store, m1.relpath, ContentBytes);
      var m2 := MapLink(fs1, stage, HashedPackageLink(dir, "pytest-1.2.zip", h2));
      && FileExists(fs1, m1.relpath)
      && Lookup(m2.store, m2.relpath).md5 == h2
      && !FileExists(m2.store, m2.relpath)
  {
    var link1 := HashedPackageLink(dir, "pytest-1.2.zip", h1);
    var link2 := HashedPackageLink(dir, "pytest-1.2.zip", h2);
    HashedPackageLinkParts(dir, "pytest-1.2.zip", h1);
    HashedPackageLinkParts(dir, "pytest-1.2.zip", h2);
    DistinctMd5DistinctRelpath(stage, link1, link2);
  }

  /** test_file_delete: `file_delete` removes bytes that were written. */
  lemma FileDeleteScenario(stage: Stage, dir: string)
    requires FragSep !in dir
    ensures var m := MapLink(EmptyStore, stage, PlainPackageLink(dir, "pytest-1.2.zip"));
      var fs1 := SetFileContent(m.store, m.relpath, []);
      && FileExists(fs1, m.relpath)
      && !FileExists(FileDelete(fs1, m.relpath), m.relpath)
  {
  }

  /** test_maplink_egg: `master#egg=pytest-dev` maps deterministically to a
      relpath ending in `/master`, with egg fragment `pytest-dev`, no md5 and
      the url without fragment. */
  lemma MaplinkEgg(stage: Stage, dir: string)
    requires ValidStage(stage) && FragSep !in dir
    ensures var link := EggPackageLink(dir);
      var m1 := MapLink(EmptyStore, stage, link);
      var m2 := MapLink(m1.store, stage, link);
      && m1.relpath == m2.relpath
      && Lookup(m1.store, m1.relpath) == Lookup(m2.store, m2.relpath)
      && EndsWith(m1.relpath, "/master")
      && Lookup(m1.store, m1.relpath).eggfragment == "pytest-dev"
      && Lookup(m1.store, m1.relpath).md5 == ""
      && Lookup(m1.store, m1.relpath).url == NoFrag(link)
      && NoFrag(link) == dir + "/master"
  {
    var link := EggPackageLink(dir);
    EggPackageLinkParts(dir);
    MappedEggEndsWith(stage, dir);
    MapLinkIdempotent(EmptyStore, stage, link);
  }

  /** `dir/name#egg=egg`. */
  function EggNamedLink(dir: string, name: string, egg: string): Link
  {
    Link(dir + [Sep] + name + [FragSep] + EggKey + egg)
  }

  /** `dir/master#egg=pytest-dev`. */
  function EggPackageLink(dir: string): Link
  {
    EggNamedLink(dir, "master", "pytest-dev")
  }

  /** The parts of `dir/name#egg=egg`. */
  lemma EggNamedLinkParts(dir: string, name: string, egg: string)
    requires FragSep !in dir && FragSep !in name && Sep !in name
    ensures var link := EggNamedLink(dir, name, egg);
      && NoFrag(link) == dir + [Sep] + name
      && EggFragment(link) == egg
      && Md5(link) == ""
      && Basename(link) == name
  {
    EggLink(dir + [Sep] + name, egg);
    LastSegmentAppend(dir, name);
  }

  /** The parts of `dir/master#egg=pytest-dev`. */
  lemma EggPackageLinkParts(dir: string)
    requires FragSep !in dir
    ensures var link := EggPackageLink(dir);
      && NoFrag(link) == dir + "/master"
      && EggFragment(link) == "pytest-dev"
      && Md5(link) == ""
      && Basename(link) == "master"
  {
    MasterNameFacts();
    EggNamedLinkParts(dir, "master", "pytest-dev");
    assert dir + [Sep] + "master" == dir + ([Sep] + "master");
  }

  /** The relpath of `dir/master#egg=pytest-dev` ends in `/master`. */
  lemma MappedEggEndsWith(stage: Stage, dir: string)
    requires ValidStage(stage) && FragSep !in dir
    ensures EndsWith(MapLink(EmptyStore, stage, EggPackageLink(dir)).relpath, "/master")
  {
    var link := EggPackageLink(dir);
    MasterNameFacts();
    EggPackageLinkParts(dir);
    MapLinkEndsWith(EmptyStore, stage, link, "master", "/master");
  }

  /** `master` is a single path segment without fragment. */
  lemma MasterNameFacts()
    ensures FragSep !in "master" && Sep !in "master"
    ensures [Sep] + "master" == "/master"
  {
  }

  /** test_relpathentry: `set(md5=...)` creates no bytes; `set_file_content`
      creates them and keeps url and md5; re-reading keeps all three;
      `delete` removes the bytes. */
  lemma RelpathEntry(stage: Stage, dir: string)
    requires FragSep !in dir
    ensures var link := PlainPackageLink(dir, "pytest-1.7.zip");
      var m := MapLink(EmptyStore, stage, link);
      var fs1 := SetFields(m.store, m.relpath, Some(Md5Ones), None, None);
      var fs2 := SetFileContent(fs1, m.relpath, []);
      var reread := GetFileEntry(fs2, m.relpath);
      && Lookup(m.store, m.relpath).url == link.url
      && !FileExists(m.store, m.relpath)
      && !FileExists(fs1, m.relpath)
      && FileExists(fs2, m.relpath)
      && Lookup(fs2, m.relpath).url == link.url
      && Lookup(fs2, m.relpath).md5 == Md5Ones
      && reread.Some? && reread.value.content.Some?
      && reread.value.url == link.url && reread.value.md5 == Md5Ones
      && !FileExists(Delete(fs2, m.relpath), m.relpath)
  {
    PlainPackageLinkParts(dir, "pytest-1.7.zip");
  }

  /** test_getfile: a fetch of three declared and three received bytes
      returns the upstream headers and the bytes, records size 3 and the
      bytes' md5, and a later `getfile` without transport returns the same. */
  lemma GetFileScenario(stage: Stage, dir: string, md5: Digest)
    requires FragSep !in dir
    ensures var m := MapLink(EmptyStore, stage, PlainPackageLink(dir, "pytest-1.8.zip"));
      var f := GetFileSpec(m.store, m.relpath, Some(Response(StatusOk, Headers3, Bytes123)), md5);
      var reread := GetFileEntry(f.store, m.relpath);
      && Lookup(m.store, m.relpath).md5 == "" && !FileExists(m.store, m.relpath)
      && f.result == Ok(Served(Headers3, Bytes123))
      && reread.Some? && reread.value.content.Some?
      && reread.value.md5 == md5(Bytes123)
      && reread.value.size == Some(3)
      && GetFileSpec(f.store, m.relpath, None, md5).result == Ok(Served(Headers3, Bytes123))
  {
    PlainPackageLinkParts(dir, "pytest-1.8.zip");
    assert NatToString(3) == "3";
    assert Headers3[ContentLengthHeader := "3"] == Headers3;
  }

  /** test_iterfile_remote_no_headers: without any upstream header the
      returned headers still carry `content-length` 3 and no content type. */
  lemma RemoteNoHeaders(stage: Stage, dir: string, md5: Digest)
    requires FragSep !in dir
    ensures var m := MapLink(EmptyStore, stage, PlainPackageLink(dir, "pytest-1.8.zip"));
      var f := GetFileSpec(m.store, m.relpath, Some(Response(StatusOk, map[], Bytes123)), md5);
      && Lookup(m.store, m.relpath).md5 == ""
      && f.result.Ok?
      && ContentLengthHeader in f.result.value.headers
      && f.result.value.headers[ContentLengthHeader] == "3"
      && "content-type" !in f.result.value.headers
      && f.result.value.content == Bytes123
  {
    PlainPackageLinkParts(dir, "pytest-1.8.zip");
    assert NatToString(3) == "3";
  }

  /** test_iterfile_remote_error_size_mismatch: three declared bytes but one
      received is a ValueError, and nothing is cached. */
  lemma RemoteSizeMismatch(stage: Stage, dir: string, md5: Digest)
    requires FragSep !in dir
    ensures var m := MapLink(EmptyStore, stage, PlainPackageLink(dir, "pytest-3.0.zip"));
      var f := GetFileSpec(m.store, m.relpath, Some(Response(StatusOk, Headers3, Bytes1)), md5);
      && Lookup(m.store, m.relpath).md5 == ""
      && f.result == Err(SizeMismatch(3, 1))
      && f.result.error.IsValueError()
      && !FileExists(f.store, m.relpath)
  {
    PlainPackageLinkParts(dir, "pytest-3.0.zip");
    Headers3DeclaresThree();
    assert !LengthAgrees(Headers3, Bytes1);
  }

  /** test_iterfile_remote_nosize: headers without `content-length` leave the
      size unknown; one received byte with chunks of three is then accepted
      and recorded as size 1. */
  lemma RemoteNoSize(stage: Stage, dir: string, md5: Digest)
    requires FragSep !in dir
    ensures var m := MapLink(EmptyStore, stage, PlainPackageLink(dir, "pytest-3.0.zip"));
      var fs1 := SetHttpHeaders(m.store, m.relpath, HeadersNoSize);
      var f := GetFileSpec(fs1, m.relpath, Some(Response(StatusOk, HeadersNoSize, Bytes1)), md5);
      var reread := GetFileEntry(f.store, m.relpath);
      && Lookup(m.store, m.relpath).md5 == ""
      && Lookup(fs1, m.relpath).size.None?
      && f.result.Ok? && f.result.value.content == Bytes1
      && reread.Some? && reread.value.size == Some(1)
  {
    PlainPackageLinkParts(dir, "pytest-3.0.zip");
  }

  /** test_iterfile_remote_error_md5: bytes whose md5 differs from the link's
      raise a ValueError naming the link's md5, and nothing is cached. */
  lemma RemoteMd5Mismatch(stage: Stage, dir: string, h: string, md5: Digest)
    requires FragSep !in dir
    requires h != "" && md5(Bytes123) != h
    ensures var link := HashedPackageLink(dir, "pytest-3.0.zip", h);
      var m := MapLink(EmptyStore, stage, link);
      var f := GetFileSpec(m.store, m.relpath, Some(Response(StatusOk, Headers3, Bytes123)), md5);
      && Lookup(m.store, m.relpath).md5 == h
      && f.result.Err? && f.result.error.IsValueError()
      && Contains(Message(f.result.error), h)
      && !FileExists(f.store, m.relpath)
  {
    var link := HashedPackageLink(dir, "pytest-3.0.zip", h);
    HashedPackageLinkParts(dir, "pytest-3.0.zip", h);
    var m := MapLink(EmptyStore, stage, link);
    Headers3DeclaresThree();
    var f := GetFileSpec(m.store, m.relpath, Some(Response(StatusOk, Headers3, Bytes123)), md5);
    assert f.result == Err(Md5Mismatch(m.relpath, h, md5(Bytes123)));
    Md5MismatchNamesExpected(m.relpath, h, md5(Bytes123));
  }

  /** test_store_and_iter: a pushed file has the md5 of its content, reads
      back under its basename with that md5 and a modification time, and is
      served without transport. */
  lemma StoreAndIter(md5: Digest, now: string)
    requires now != ""
    ensures var r := Store(EmptyStore, "user", "index", "something-1.0.zip", HelloBytes, md5, now);
      var reread := GetFileEntry(r.store, r.relpath);
      && Lookup(r.store, r.relpath).md5 == md5(HelloBytes)
      && FileExists(r.store, r.relpath)
      && reread.Some? && reread.value.content.Some?
      && EntryBasename(r.relpath) == "something-1.0.zip"
      && reread.value.md5 == md5(HelloBytes)
      && LastModified(reread.value).Some? && LastModified(reread.value).value != ""
      && GetFileSpec(r.store, r.relpath, None, md5).result.Ok?
      && GetFileSpec(r.store, r.relpath, None, md5).result.value.content == HelloBytes
  {
    StoreBasename(EmptyStore, "user", "index", "something-1.0.zip", HelloBytes, md5, now);
  }

  /** test_add_testresult: an added tox result reads back by its number. */
  lemma AddTestResult(md5: string, data: string)
    ensures var a := AddAttachment(EmptyStore, md5, "toxresult", data);
      GetAttachment(a.store, md5, "toxresult", a.num) == Some(data)
  {
    AttachmentRoundTrip(EmptyStore, md5, "toxresult", data);
  }
}
