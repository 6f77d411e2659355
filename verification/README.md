# devpi file store — a Dafny model

This project models the file store of devpi-server, the cache that mirrors
release files from an upstream package index and holds attachments such as
tox results. Its behaviour is the behaviour fixed by the `TestFileStore`
suite (`server/test_devpi_server/test_filestore.py`). The implementation
module `devpi_server.filestore` is not part of this model. The model is a
reference model of what those tests pin down, with one lemma per test
scenario.

- **Strings** (`strings.dfy`). Python's `split("/")` and `"/".join`, which
  are proved to be inverses. Python slicing and `in` on strings. `str` and
  `int` on sizes, with `int(str(n)) == n` proved.
- **Links** (`links.dfy`). Parses a link URL: the url without fragment, the
  `md5=` and `egg=` fragments, and the basename. It also derives the
  relpath. A link that declares an md5 goes under
  `user/index/md5[:3]/md5[3:]/basename`. Any other link goes under
  `user/index/<slug>/basename`.
- **Filestore** (`filestore.dfy`). The state is an immutable map from
  relpath to file entry, plus an attachment map. Each operation is a pure
  function with its contract. The updates are `maplink`, `set`,
  `set_file_content`, `sethttpheaders`, `file_delete`, `delete`, `store`
  and `add_attachment`. The reads are `file_exists`, `get_file_entry` and
  `get_attachment`. The store invariant `SizesMatch` says that every
  cached entry records the length of its bytes as its size. Every update
  except `sethttpheaders` is proved to preserve it, and so is `getfile`.
  `sethttpheaders` preserves it when the entry has no bytes or the headers
  declare their length.
- **Fetch** (`fetch.dfy`). `getfile` has two forms: a functional
  specification (`GetFileSpec`) and a method (`GetFile`) that reads the
  response in chunks. The method is proved to give the specification's
  result for every chunk size.
- **Scenarios** (`scenarios.dfy`). One lemma per test.

Parameters stand in for parts the tests do not fix:
- The MD5 algorithm is a parameter `md5: Bytes -> string`. Only equality of
  digests matters.
- The transport is the `Response` it would return: a status, a header map
  and a byte sequence. `None` stands for `httpget=None`.
- The mirror stage that `maplink` files links under is a parameter.
- The push time of `store` is a parameter.
- A transaction restart re-reads committed state. In the model it is the
  identity: re-reading an entry is a lookup in the same state value.

The tests fix that `set_file_content` leaves a previously set md5
unchanged (test_filestore.py:82-87), so the model does not recompute it.

One consequence of two modelled rules is stated as `Fetch.RemapAfterUnhashedFetch`:
- A successful fetch records the md5 of the received bytes, even for a link
  without md5 (test_filestore.py:118).
- `maplink` drops cached bytes when the md5 it is given differs from the
  recorded one. This is a modelling choice; see `Filestore.MapLink` under
  "## Left out".

So mapping a hash-less link again after its bytes were fetched drops those
bytes.

## Model

| member | source | states |
|---|---|---|
| Strings.Split | server/test_devpi_server/test_filestore.py:23-25 | `relpath.split("/")` yields at least one segment, and no segment contains `/` |
| Strings.SplitJoin | server/test_devpi_server/test_filestore.py:23-27 | splitting a path joined from `/`-free segments gives back exactly those segments |
| Strings.JoinSplit | server/test_devpi_server/test_filestore.py:23 | joining the segments of any string with `/` gives back the string |
| Strings.LastSegment | server/test_devpi_server/test_filestore.py:16 | `s.split("/")[-1]` contains no `/` and is either all of `s` or the text after its last `/` |
| Strings.JoinEndsWith | server/test_devpi_server/test_filestore.py:35 | a path joined from two or more segments ends in `/` followed by its last segment |
| Strings.LastSegmentAppend | server/test_devpi_server/test_filestore.py:16 | the last segment of `dir/name` is `name` when `name` has no `/` |
| Strings.IndexOf | server/test_devpi_server/test_filestore.py:74 | the result is the first position of the character, or the length when it does not occur; nothing before it is that character |
| Strings.NatToString | server/test_devpi_server/test_filestore.py:109 | a rendered size is a non-empty string of decimal digits, with no leading zero unless it is `0` itself |
| Strings.ParseNatToString | server/test_devpi_server/test_filestore.py:109 | parsing a rendered size gives back the size (`int(str(n)) == n`) |
| Strings.NatToStringInjective | server/test_devpi_server/test_filestore.py:134 | different sizes render as different `content-length` strings |
| Strings.TakeDrop | server/test_devpi_server/test_filestore.py:26-27 | `md5[:3] + md5[3:]` is `md5` |
| Links.Sanitize | server/test_devpi_server/test_filestore.py:71 | the slug keeps its input's length and uses only `[a-zA-Z0-9_.-]`. Every character already in that set is kept, and every other character becomes `_` |
| Links.Slug | server/test_devpi_server/test_filestore.py:71 | the directory segment of a link without md5 contains no `/` |
| Links.NoFrag | server/test_devpi_server/test_filestore.py:74 | `url_nofrag` is the prefix of the url before its first `#`: it contains no `#`, and it is followed by `#` whenever it is shorter than the url |
| Links.Md5 | server/test_devpi_server/test_filestore.py:36 | `link.md5` is the text after `md5=` when the fragment starts with `md5=`, and empty otherwise |
| Links.EggFragment | server/test_devpi_server/test_filestore.py:72-73 | `link.eggfragment` is the text after `egg=` when the fragment starts with `egg=`, and empty otherwise. A link that names an egg declares no md5 |
| Links.Basename | server/test_devpi_server/test_filestore.py:16 | `link.basename` contains no `/` and no `#`, and it is either the whole url without fragment or follows its last `/` |
| Links.Relpath | server/test_devpi_server/test_filestore.py:23-27 | splitting a link's relpath at `/` gives exactly its segments, when the stage names and the md5 contain no `/` |
| Links.SegmentsNoSep | server/test_devpi_server/test_filestore.py:23-27 | every relpath segment is `/`-free when the stage names and the declared md5 are |
| Links.FragmentSplit | server/test_devpi_server/test_filestore.py:74 | the url without fragment contains no `#`; with `#`, that url, `#` and the fragment rebuild the url; without `#`, the url is its own url without fragment and the fragment is empty |
| Links.ParseFragment | server/test_devpi_server/test_filestore.py:67-75 | the url `base#frag` has `base` as its url without fragment and `frag` as its fragment |
| Links.EggLink | server/test_devpi_server/test_filestore.py:67-75 | `base#egg=name` has url without fragment `base`, egg fragment `name` and no md5 |
| Links.HashedLink | server/test_devpi_server/test_filestore.py:170-172 | `base#md5=h` has url without fragment `base`, md5 `h` and no egg fragment |
| Links.PlainLink | server/test_devpi_server/test_filestore.py:78-80 | a url without `#` declares neither md5 nor egg fragment and is its own url without fragment |
| Links.ShardedRelpath | server/test_devpi_server/test_filestore.py:19-27 | for a link with an md5, the relpath splits into 5 segments; the last three are `md5[:3]`, `md5[3:]` and the basename, and the first two concatenate back to the md5 |
| Links.RelpathBasename | server/test_devpi_server/test_filestore.py:35 | a relpath's last segment is its link's basename, and the relpath ends in `/basename` |
| Links.DistinctMd5DistinctRelpath | server/test_devpi_server/test_filestore.py:47-56 | links that declare different md5s never share a relpath |
| Links.HashedUnhashedDisjoint | server/test_devpi_server/test_filestore.py:66-75 | a link with an md5 and a link without one never share a relpath |
| Filestore.MapLink | server/test_devpi_server/test_filestore.py:29-56 | `maplink` records the link's url without fragment, its egg fragment and its md5 at the link's relpath, and keeps the slot's headers. Bytes survive only when the link declares the md5 already recorded at the slot, and then the bytes and their size are kept. Other entries and attachments do not change |
| Filestore.MapLinkIdempotent | server/test_devpi_server/test_filestore.py:11-15 | mapping the same link twice gives the same relpath and an equal entry (maplink is deterministic) |
| Filestore.MapLinkBasename | server/test_devpi_server/test_filestore.py:16 | the mapped entry's basename is the link's basename, and its relpath ends in `/basename` |
| Filestore.MapLinkChangedMd5Uncached | server/test_devpi_server/test_filestore.py:47-56 | mapping a link whose md5 differs from the one recorded at its slot yields an entry with the new md5 and no bytes |
| Filestore.SetFields | server/test_devpi_server/test_filestore.py:82-83 | `set(md5=...)` gives each field a new value only where one is given. Bytes, size and headers are never touched |
| Filestore.SetFileContent | server/test_devpi_server/test_filestore.py:84-87 | after `set_file_content` the file exists with exactly those bytes and their size. The md5, url, egg fragment and headers are unchanged |
| Filestore.WriteThenFileDelete | server/test_devpi_server/test_filestore.py:58-64 | `set_file_content` then `file_delete`, for any store, leaves no bytes. The slot keeps the md5, url and egg fragment it had before, and nothing else changes |
| Filestore.SetHttpHeaders | server/test_devpi_server/test_filestore.py:156-160 | `sethttpheaders` stores the headers. With no `content-length` the size is `None`, and a rendered size `n` becomes size `n`. Bytes, md5, url and egg fragment are unchanged |
| Filestore.FileDelete | server/test_devpi_server/test_filestore.py:58-64 | `file_delete` makes `file_exists` false and clears the size. It keeps whether the entry is stored, and its md5, url, egg fragment and headers |
| Filestore.Delete | server/test_devpi_server/test_filestore.py:94-95 | `delete` removes the entry: `get_file_entry` finds nothing and `file_exists` is false; other entries do not change |
| Filestore.FileExists | server/test_devpi_server/test_filestore.py:117 | `file_exists` holds exactly when `get_file_entry` finds an entry that has bytes |
| Filestore.GetFileEntry | server/test_devpi_server/test_filestore.py:116 | `get_file_entry` finds an entry exactly when one is stored. The entry found is the one every operation reads, and a relpath without one reads as a fresh entry |
| Filestore.Store | server/test_devpi_server/test_filestore.py:209-219 | `store` files the content under `user/index/basename`, with md5 = md5(content), the content's size, and the push time as last-modified |
| Filestore.StoreBasename | server/test_devpi_server/test_filestore.py:215-216 | a pushed file reads back under its basename |
| Filestore.AddAttachment | server/test_devpi_server/test_filestore.py:231 | `add_attachment` appends the data under `(md5, kind)` and returns the count stored there before; other keys and the entries do not change |
| Filestore.GetAttachment | server/test_devpi_server/test_filestore.py:232 | `get_attachment` returns a value exactly when `num` is below the number of attachments stored under `(md5, kind)`, and that value is the attachment at position `num` |
| Filestore.AttachmentRoundTrip | server/test_devpi_server/test_filestore.py:231-233 | `get_attachment(md5, kind, add_attachment(md5, kind, data))` is `data`; the next number is not assigned; earlier numbers read as before |
| Filestore.AttachmentNumbering | server/test_devpi_server/test_filestore.py:231-233 | numbers for a new key start at 0 and count up by one, and each number reads back its own data |
| Filestore.MapLinkKeepsSizes | server/test_devpi_server/test_filestore.py:29-56 | `maplink` preserves `SizesMatch`, the invariant that every cached entry records the length of its bytes as its size |
| Filestore.SetFieldsKeepsSizes | server/test_devpi_server/test_filestore.py:82-83 | `set` preserves `SizesMatch` |
| Filestore.SetFileContentKeepsSizes | server/test_devpi_server/test_filestore.py:84-87 | `set_file_content` preserves `SizesMatch` |
| Filestore.SetHttpHeadersKeepsSizes | server/test_devpi_server/test_filestore.py:156-160 | `sethttpheaders` preserves `SizesMatch` when the entry has no bytes or the headers declare their length |
| Filestore.FileDeleteKeepsSizes | server/test_devpi_server/test_filestore.py:58-64 | `file_delete` preserves `SizesMatch` |
| Filestore.DeleteKeepsSizes | server/test_devpi_server/test_filestore.py:94-95 | `delete` preserves `SizesMatch` |
| Filestore.StoreKeepsSizes | server/test_devpi_server/test_filestore.py:209-219 | `store` preserves `SizesMatch` |
| Filestore.AddAttachmentKeepsSizes | server/test_devpi_server/test_filestore.py:231 | `add_attachment` preserves `SizesMatch` |
| Fetch.GetFileSpec | server/test_devpi_server/test_filestore.py:97-182 | a failure leaves the store unchanged, and an unknown relpath is NotFound. Cached bytes are served with their stored headers, with or without transport, and what is served is what the store then holds. A fresh fetch serves exactly the streamed bytes and records their size and md5. Its headers are the upstream header names plus `content-length`, the upstream values, and `content-length` set to the received length. A fetch succeeds if and only if the declared length (if any) and the entry's md5 (if any) match the bytes. A failed length check is `SizeMismatch`. A passed length check with a failed md5 check is `Md5Mismatch`, which carries the entry's md5. Without transport an uncached entry is `NoTransport`, and a status other than 200 is `BadStatus` with nothing committed. A fetch never changes the slot's url or egg fragment |
| Fetch.Verify | server/test_devpi_server/test_filestore.py:138-182 | the checks pass exactly when the length and the md5 agree with the bytes. A length failure is `SizeMismatch` and is checked first; an md5 failure is `Md5Mismatch` carrying the entry's md5; every failure is a ValueError |
| Fetch.ReadChunked | server/test_devpi_server/test_filestore.py:107-108 | reading a stream in chunks of any positive size accumulates exactly the stream |
| Fetch.GetFile | server/test_devpi_server/test_filestore.py:107-108 | the chunked `getfile` has the same outcome and the same next state as `GetFileSpec`, for every chunk size |
| Fetch.CachedAfterFetch | server/test_devpi_server/test_filestore.py:114-122 | after a successful fetch, `getfile` without transport returns the same headers and bytes and changes nothing |
| Fetch.StoreServedWithoutTransport | server/test_devpi_server/test_filestore.py:220-221 | a pushed file is served without transport: its bytes, with headers declaring its length |
| Fetch.DeletedNotFound | server/test_devpi_server/test_filestore.py:94-95 | after `delete`, `getfile` reports the relpath as not found |
| Fetch.Md5MismatchNamesExpected | server/test_devpi_server/test_filestore.py:179-181 | the text of an md5 failure contains the expected md5 |
| Fetch.FailedFetchLeavesNoFile | server/test_devpi_server/test_filestore.py:179-182 | a failed fetch of an uncached entry leaves `file_exists` false |
| Fetch.RemapAfterUnhashedFetch | server/test_devpi_server/test_filestore.py:114-118 | a successful fetch records the md5 of the bytes even for a link without md5. So, under the model's md5-change rule, mapping that link again leaves no bytes |
| Fetch.RemapAfterHashedFetch | server/test_devpi_server/test_filestore.py:114-122 | after a successful fetch of a link with an md5, mapping the link again keeps the relpath, and `getfile` without transport serves what the fetch served |
| Fetch.GetFileKeepsSizes | server/test_devpi_server/test_filestore.py:97-122 | `getfile` preserves `SizesMatch`, whatever the response |
| Fetch.RefetchAfterFileDelete | server/test_devpi_server/test_filestore.py:58-64 | after `set_file_content` then `file_delete`, a 200 response whose length and md5 checks pass is served, fills the slot with its bytes, and keeps the url |
| Scenarios.MaplinkDeterministic | server/test_devpi_server/test_filestore.py:11-17 | mapping `pytest-1.2.zip` twice gives one relpath with basename `pytest-1.2.zip` |
| Scenarios.MaplinkSplitMd5 | server/test_devpi_server/test_filestore.py:19-27 | the relpath's segments `[-3]` and `[-2]` are `md5[:3]` and `md5[3:]` |
| Scenarios.Maplink | server/test_devpi_server/test_filestore.py:29-36 | neither mapping has bytes; the entries are equal; the relpath ends in `/pytest-1.2.zip`; the md5 is the link's |
| Scenarios.MaplinkReplacedNotCached | server/test_devpi_server/test_filestore.py:38-45 | the first mapping has no bytes and md5 `h1`; mapping the new link gives md5 `h2` |
| Scenarios.MaplinkReplacedAlreadyCached | server/test_devpi_server/test_filestore.py:47-56 | after bytes were written for the old link, the new link's entry has the new md5 and no bytes |
| Scenarios.FileDeleteScenario | server/test_devpi_server/test_filestore.py:58-64 | after writing empty content the file exists; after `file_delete` it does not |
| Scenarios.MaplinkEgg | server/test_devpi_server/test_filestore.py:66-75 | `master#egg=pytest-dev`: equal entries on repeated mapping, relpath ending in `/master`, egg fragment `pytest-dev`, empty md5, url without fragment |
| Scenarios.RelpathEntry | server/test_devpi_server/test_filestore.py:77-95 | `set(md5=...)` creates no bytes; `set_file_content` does and keeps url and md5; the re-read entry agrees; `delete` removes the bytes |
| Scenarios.GetFileScenario | server/test_devpi_server/test_filestore.py:97-122 | a 3-byte fetch returns the upstream headers and `b"123"`, records size 3 and md5(`b"123"`), and is then served without transport |
| Scenarios.RemoteNoHeaders | server/test_devpi_server/test_filestore.py:124-136 | with no upstream headers the result has `content-length` `"3"` and no `content-type` |
| Scenarios.RemoteSizeMismatch | server/test_devpi_server/test_filestore.py:138-149 | 3 declared bytes and 1 received is a ValueError (size mismatch), and nothing is cached |
| Scenarios.RemoteNoSize | server/test_devpi_server/test_filestore.py:151-167 | headers without a size leave the size `None`; 1 byte is then accepted and recorded as size 1 |
| Scenarios.RemoteMd5Mismatch | server/test_devpi_server/test_filestore.py:169-182 | bytes whose md5 differs from the link's are a ValueError whose text contains the link's md5, and the file does not exist |
| Scenarios.StoreAndIter | server/test_devpi_server/test_filestore.py:209-221 | a pushed file has md5(content). It reads back under its basename with that md5 and a non-empty last-modified, and it is served without transport |
| Scenarios.AddTestResult | server/test_devpi_server/test_filestore.py:223-233 | an added tox result reads back by the number it was given |

## Left out

- HTTP transport (`httpget`): the response is a given value. Transport exceptions while streaming and redirects are not modelled. A non-200 status is an error.
- keyfs transactions (`restart_as_write_transaction`): a restart is the identity on committed state. There is no concurrency.
- The MD5 algorithm: it is a function parameter. The md5 comparison is exact, not case-insensitive.
- The test generator `gen`: links are explicit URLs (`dir/name#md5=h` or `dir/name`). Where a test relies on two random md5s being distinct, the lemma requires it.
- `test_iterfile_eggfragment` (test_filestore.py:184-207): it is marked as an expected failure, and its behaviour is undefined.
- The JSON encoding of the tox result: attachment data is an opaque string.
- The value of the last-modified timestamp: it is a parameter, and only its presence matters. The check that `md5` is a text type (test_filestore.py:17) has no counterpart.
- `iterfile`, the streaming variant of `getfile`: it is used only by the expected-failure test.
- Links.Slug: the directory segment of a link without md5 is modelled as the url's directory with characters outside `[a-zA-Z0-9_.-]` replaced by `_`. The tests do not fix the exact derivation. The tests fix only the basename, the determinism, and the fact that the segment contains no `/`.
- Links.Basename: query strings and percent-decoding of the URL path are not modelled.
- Filestore.SetHttpHeaders: a header whose value is `None` is modelled as an absent header. A `content-length` that is not a decimal number counts as an unknown size, and no exception is raised.
- Filestore.MapLink: dropping cached bytes when the declared md5 changes is a modelling choice. Under it, bytes survive a re-map only when the link declares the md5 already recorded at the slot; then the bytes, their size and the headers are kept. The tests never reach this branch. In test_filestore.py:47-56 the two links declare different md5s, so they map to different relpaths (`Links.DistinctMd5DistinctRelpath`). The only path to the branch is remapping a link without md5 after a fetch (`Fetch.RemapAfterUnhashedFetch`), and no test covers that.
- Filestore.SetFields: only the `md5`, `url` and `eggfragment` keywords of `set` are modelled.
- Fetch.GetFile: the chunk size is a positive number. A chunk size of 0 is not modelled.
- `getfile` with `httpget=None` on an uncached entry is modelled as a `NoTransport` error. The test suite never exercises this case.
