/** Link identity: what a release link found on an index page says about the
    file it names, and the cache-relative path (relpath) its bytes live under.

    A link is a URL such as `https://host/pkg/pytest-1.2.zip#md5=<hexdigest>`
    or `https://host/repo/master#egg=pytest-dev`. The part after the first
    `#` is its fragment; an `md5=` fragment declares the content hash, an
    `egg=` fragment names a VCS checkout that has no hash. */
module Links {
  import opened Wrappers
  import opened Strings

  const FragSep: char := '#'
  const Md5Key: string := "md5="
  const EggKey: string := "egg="

  /** A remote link, as resolved from an index page. */
  datatype Link = Link(url: string)

  /** The stage (user and index) under which mirrored files are kept. */
  datatype Stage = Stage(user: string, index: string)

  predicate ValidStage(stage: Stage)
  {
    Sep !in stage.user && Sep !in stage.index
  }

  /** `link.url_nofrag`: the URL up to its first `#`, all of it when there
      is none. */
  function NoFrag(link: Link): (r: string)
    ensures |r| <= |link.url| && link.url[..|r|] == r
    ensures FragSep !in r
    ensures |r| < |link.url| ==> link.url[|r|] == FragSep
  {
    link.url[..IndexOf(link.url, FragSep)]
  }

  /** The text after the first `#`, or empty when there is no `#`. */
  function Fragment(link: Link): string
  {
    var i := IndexOf(link.url, FragSep);
    if i < |link.url| then link.url[i + 1..] else ""
  }

  /** The value of a `key=` fragment, or empty when the fragment has another form. */
  function FragmentValue(frag: string, key: string): (r: string)
    ensures StartsWith(frag, key) ==> frag == key + r
    ensures !StartsWith(frag, key) ==> r == ""
  {
    if StartsWith(frag, key) then frag[|key|..] else ""
  }

  /** `link.md5`: the declared hex digest, empty when none is declared. */
  function Md5(link: Link): (r: string)
    ensures StartsWith(Fragment(link), Md5Key) ==> Fragment(link) == Md5Key + r
    ensures !StartsWith(Fragment(link), Md5Key) ==> r == ""
  {
    FragmentValue(Fragment(link), Md5Key)
  }

  /** `link.eggfragment`: the name after `#egg=`, empty when there is none.
      A link naming an egg declares no md5. */
  function EggFragment(link: Link): (r: string)
    ensures StartsWith(Fragment(link), EggKey) ==> Fragment(link) == EggKey + r
    ensures !StartsWith(Fragment(link), EggKey) ==> r == ""
    ensures r != "" ==> Md5(link) == ""
  {
    var frag := Fragment(link);
    assert StartsWith(frag, EggKey) ==> !StartsWith(frag, Md5Key) by {
      if StartsWith(frag, EggKey) { assert frag[0] == EggKey[0] != Md5Key[0]; }
    }
    FragmentValue(frag, EggKey)
  }

  /** `link.basename`: the last path segment of the URL without fragment. */
  function Basename(link: Link): (r: string)
    ensures Sep !in r && FragSep !in r
    ensures r == NoFrag(link) || EndsWith(NoFrag(link), [Sep] + r)
  {
    var u := NoFrag(link);
    var r := LastSegment(u);
    assert FragSep !in r by {
      if r != u {
        assert r == u[|u| - |r|..];
      }
    }
    r
  }

  /** The directory part of a path: everything before its last `/`. */
  function DirPart(s: string): string
  {
    var parts := Split(s);
    if |parts| == 1 then "" else Join(parts[..|parts| - 1])
  }

  predicate SlugChar(c: char)
  {
    ('a' <= c <= 'z') || ('A' <= c <= 'Z') || ('0' <= c <= '9') || c == '_' || c == '.' || c == '-'
  }

  /** Replaces every character outside `[a-zA-Z0-9_.-]` with `_`. */
  function Sanitize(s: string): (r: string)
    ensures |r| == |s|
    ensures forall i :: 0 <= i < |r| ==> SlugChar(r[i])
    ensures forall i :: 0 <= i < |s| && SlugChar(s[i]) ==> r[i] == s[i]
    ensures forall i :: 0 <= i < |s| && !SlugChar(s[i]) ==> r[i] == '_'
  {
    seq(|s|, i requires 0 <= i < |s| => if SlugChar(s[i]) then s[i] else '_')
  }

  /** The directory segment of a hash-less link: its URL directory, flattened. */
  function Slug(link: Link): (r: string)
    ensures Sep !in r
  {
    var r := Sanitize(DirPart(NoFrag(link)));
    assert forall i :: 0 <= i < |r| ==> r[i] != Sep by {
      forall i | 0 <= i < |r| ensures r[i] != Sep {
        assert SlugChar(r[i]);
      }
    }
    r
  }

  /** The relpath segments: `user/index/md5[:3]/md5[3:]/basename` for a link
      with a declared md5, `user/index/<slug>/basename` otherwise. */
  function Segments(stage: Stage, link: Link): seq<string>
  {
    var md5 := Md5(link);
    if md5 != "" then [stage.user, stage.index, Take(md5, 3), Drop(md5, 3), Basename(link)]
    else [stage.user, stage.index, Slug(link), Basename(link)]
  }

  /** The cache key a link's bytes are kept under; its segments are the
      link's `Segments` when those are separator-free. */
  function Relpath(stage: Stage, link: Link): (r: string)
    ensures ValidStage(stage) && Sep !in Md5(link) ==> Split(r) == Segments(stage, link)
  {
    var parts := Segments(stage, link);
    assert ValidStage(stage) && Sep !in Md5(link) ==> Split(Join(parts)) == parts by {
      if ValidStage(stage) && Sep !in Md5(link) {
        SegmentsNoSep(stage, link);
        SplitJoin(parts);
      }
    }
    Join(parts)
  }

  /** Every segment of a link's relpath is separator-free when the stage
      names and the declared md5 are. */
  lemma SegmentsNoSep(stage: Stage, link: Link)
    requires ValidStage(stage)
    requires Sep !in Md5(link)
    ensures NoSep(Segments(stage, link))
  {
    PartsNoSep(stage.user, stage.index, Md5(link), Slug(link), Basename(link));
  }

  /** Both relpath layouts have separator-free segments when their pieces do. */
  lemma PartsNoSep(user: string, index: string, md5: string, slug: string, name: string)
    requires Sep !in user && Sep !in index && Sep !in md5 && Sep !in slug && Sep !in name
    ensures NoSep([user, index, Take(md5, 3), Drop(md5, 3), name])
    ensures NoSep([user, index, slug, name])
  {
    TakeDrop(md5, 3);
  }

  /** The URL without fragment and the fragment reassemble the URL, and the
      former holds no `#`. */
  lemma FragmentSplit(link: Link)
    ensures FragSep !in NoFrag(link)
    ensures FragSep in link.url ==> link.url == NoFrag(link) + [FragSep] + Fragment(link)
    ensures FragSep !in link.url ==> NoFrag(link) == link.url && Fragment(link) == ""
  {
    var i := IndexOf(link.url, FragSep);
    if i < |link.url| {
      assert link.url == link.url[..i] + [link.url[i]] + link.url[i + 1..];
    } else {
      assert link.url[..i] == link.url;
    }
  }

  /** A URL `base#frag` with no `#` in `base` has `base` as URL without
      fragment and `frag` as fragment. */
  lemma {:induction false} ParseFragment(base: string, frag: string)
    requires FragSep !in base
    ensures NoFrag(Link(base + [FragSep] + frag)) == base
    ensures Fragment(Link(base + [FragSep] + frag)) == frag
  {
    var url := base + [FragSep] + frag;
    var i := IndexOf(url, FragSep);
    assert url[|base|] == FragSep;
    assert url[..|base|] == base;
    assert i == |base|;
    assert url[|base| + 1..] == frag;
  }

  /** A link `base#egg=name` (the `master#egg=pytest-dev` form) declares no md5,
      names `name` as egg fragment and is fetched from `base`. */
  lemma EggLink(base: string, name: string)
    requires FragSep !in base
    ensures var link := Link(base + [FragSep] + EggKey + name);
      && NoFrag(link) == base
      && EggFragment(link) == name
      && Md5(link) == ""
  {
    assert base + [FragSep] + EggKey + name == base + [FragSep] + (EggKey + name);
    ParseFragment(base, EggKey + name);
    assert (EggKey + name)[..|EggKey|] == EggKey;
    assert (EggKey + name)[|EggKey|..] == name;
    assert (EggKey + name)[..|Md5Key|] != Md5Key;
  }

  /** A link `base#md5=h` declares `h` and names no egg fragment. */
  lemma HashedLink(base: string, h: string)
    requires FragSep !in base
    ensures var link := Link(base + [FragSep] + Md5Key + h);
      && NoFrag(link) == base
      && Md5(link) == h
      && EggFragment(link) == ""
  {
    assert base + [FragSep] + Md5Key + h == base + [FragSep] + (Md5Key + h);
    ParseFragment(base, Md5Key + h);
    assert (Md5Key + h)[..|Md5Key|] == Md5Key;
    assert (Md5Key + h)[|Md5Key|..] == h;
    assert (Md5Key + h)[..|EggKey|] != EggKey;
  }

  /** A link without `#` declares neither md5 nor egg fragment and is fetched
      from its own URL. */
  lemma PlainLink(url: string)
    requires FragSep !in url
    ensures NoFrag(Link(url)) == url && Md5(Link(url)) == "" && EggFragment(Link(url)) == ""
  {
    FragmentSplit(Link(url));
  }

  /** For a link with a declared md5, the relpath splits into five segments
      whose last three are `md5[:3]`, `md5[3:]` and the basename. */
  lemma ShardedRelpath(stage: Stage, link: Link)
    requires ValidStage(stage)
    requires Md5(link) != "" && Sep !in Md5(link)
    ensures var parts := Split(Relpath(stage, link));
      && |parts| == 5
      && parts[..2] == [stage.user, stage.index]
      && parts[|parts| - 3] == Take(Md5(link), 3)
      && parts[|parts| - 2] == Drop(Md5(link), 3)
      && parts[|parts| - 1] == Basename(link)
      && parts[|parts| - 3] + parts[|parts| - 2] == Md5(link)
  {
    SegmentsNoSep(stage, link);
    SplitJoin(Segments(stage, link));
    TakeDrop(Md5(link), 3);
  }

  /** A relpath names its link's basename as last segment and ends in `/basename`. */
  lemma RelpathBasename(stage: Stage, link: Link)
    requires ValidStage(stage)
    requires Sep !in Md5(link)
    ensures LastSegment(Relpath(stage, link)) == Basename(link)
    ensures EndsWith(Relpath(stage, link), [Sep] + Basename(link))
  {
    SegmentsNoSep(stage, link);
    SplitJoin(Segments(stage, link));
    JoinEndsWith(Segments(stage, link));
  }

  /** Links declaring different md5s map to different relpaths, so a replaced
      release never lands in the slot of the release it replaces. */
  lemma DistinctMd5DistinctRelpath(stage: Stage, a: Link, b: Link)
    requires ValidStage(stage)
    requires Md5(a) != "" && Md5(b) != "" && Md5(a) != Md5(b)
    requires Sep !in Md5(a) && Sep !in Md5(b)
    ensures Relpath(stage, a) != Relpath(stage, b)
  {
    if Relpath(stage, a) == Relpath(stage, b) {
      ShardedRelpath(stage, a);
      ShardedRelpath(stage, b);
      assert false;
    }
  }

  /** A link with a declared md5 and one without never share a relpath. */
  lemma HashedUnhashedDisjoint(stage: Stage, a: Link, b: Link)
    requires ValidStage(stage)
    requires Md5(a) != "" && Sep !in Md5(a)
    requires Md5(b) == ""
    ensures Relpath(stage, a) != Relpath(stage, b)
  {
    SegmentsNoSep(stage, a);
    SegmentsNoSep(stage, b);
    SplitJoin(Segments(stage, a));
    SplitJoin(Segments(stage, b));
  }
}
