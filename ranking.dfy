/** The popular-posts transform of the analytics refresh: keep the records
    whose path starts with `/blog/`, turn each into a post with a title
    derived from its path, and keep the first five. */
module Ranking {
  import opened Wrappers
  import opened Records

  /** Prefix that marks a blog path; also the separator the title is split on. */
  const BlogPrefix: string := "/blog/"
  /** Number of posts kept (`slice(0, 5)`). */
  const TopCount: nat := 5
  /** Title used when the path has nothing after its first `/blog/`. */
  const UnknownTitle: string := "Unknown"

  /** `text.startsWith(lead)`. */
  function HasPrefix(text: string, lead: string): (b: bool)
    ensures b <==> |lead| <= |text| && forall k :: 0 <= k < |lead| ==> text[k] == lead[k]
  {
    |lead| <= |text| && text[..|lead|] == lead
  }

  /** The filter's test, `clientRequestPath.startsWith("/blog/")`. */
  function IsBlogPath(path: string): (b: bool)
    ensures b <==> OccursAt(path, BlogPrefix, 0)
    ensures b ==> |path| >= |BlogPrefix| && path[0] == '/' && path[5] == '/'
  {
    HasPrefix(path, BlogPrefix)
  }

  /** `sep` occurs in `s` at index `k`. */
  predicate OccursAt(s: string, sep: string, k: nat)
  {
    k + |sep| <= |s| && s[k..k + |sep|] == sep
  }

  /** An occurrence past the first character is an occurrence in the tail. */
  lemma OccursAtTail(s: string, sep: string, k: nat)
    requires 1 <= k && |s| >= 1
    ensures OccursAt(s, sep, k) <==> OccursAt(s[1..], sep, k - 1)
  {
  }

  /** Index of the first occurrence of `sep` in `s`, if any. */
  function IndexOf(s: string, sep: string): (r: Option<nat>)
    ensures r.Some? ==> OccursAt(s, sep, r.value)
    ensures r.Some? ==> forall k :: 0 <= k < r.value ==> !OccursAt(s, sep, k)
    ensures r.None? ==> forall k :: 0 <= k <= |s| ==> !OccursAt(s, sep, k)
    decreases |s|
  {
    if |s| < |sep| then None
    else if OccursAt(s, sep, 0) then Some(0)
    else
      var tail := IndexOf(s[1..], sep);
      assert forall k :: 1 <= k <= |s| ==> (OccursAt(s, sep, k) <==> OccursAt(s[1..], sep, k - 1)) by {
        forall k | 1 <= k <= |s| { OccursAtTail(s, sep, k); }
      }
      if tail.None? then None else Some(tail.value + 1)
  }

  /** What `path.split("/blog/")[1]` evaluates to: the text after the first
      `/blog/` up to the next `/blog/` or the end, or `undefined` (None)
      when `/blog/` does not occur. */
  function BlogSegment(path: string): (r: Option<string>)
    ensures r.None? <==> forall k :: 0 <= k <= |path| ==> !OccursAt(path, BlogPrefix, k)
    ensures r.Some? ==> |BlogPrefix| + |r.value| <= |path|
    ensures r.Some? ==> forall k :: 0 <= k <= |r.value| ==> !OccursAt(r.value, BlogPrefix, k)
  {
    match IndexOf(path, BlogPrefix)
    case None => None
    case Some(i) =>
      var rest := path[i + |BlogPrefix|..];
      match IndexOf(rest, BlogPrefix)
      case None => Some(rest)
      case Some(j) =>
        assert forall k :: 0 <= k <= j && OccursAt(rest[..j], BlogPrefix, k) ==> OccursAt(rest, BlogPrefix, k) by {
          forall k | 0 <= k <= j && OccursAt(rest[..j], BlogPrefix, k)
            ensures OccursAt(rest, BlogPrefix, k)
          {
            assert rest[..j][k..k + |BlogPrefix|] == rest[k..k + |BlogPrefix|];
          }
        }
        Some(rest[..j])
  }

  /** `s.replace(/-/g, " ")`. */
  function DashesToSpaces(s: string): (r: string)
    ensures |r| == |s|
    ensures forall k :: 0 <= k < |s| ==> r[k] == if s[k] == '-' then ' ' else s[k]
  {
    if s == [] then [] else [if s[0] == '-' then ' ' else s[0]] + DashesToSpaces(s[1..])
  }

  /** The title of a post: its path segment with dashes as spaces, or
      "Unknown" when that segment is missing or empty. */
  function Title(path: string): (t: string)
    ensures t != []
    ensures forall k :: 0 <= k < |t| ==> t[k] != '-'
    ensures BlogSegment(path).None? || BlogSegment(path).value == [] ==> t == UnknownTitle
  {
    match BlogSegment(path)
    case None => UnknownTitle
    case Some(seg) => if seg == [] then UnknownTitle else DashesToSpaces(seg)
  }

  /** One record as a post: path and request count copied, title derived. */
  function ToPost(g: Group): (p: Post)
    ensures p.path == g.path && p.views == g.requests
    ensures p.title != [] && forall k :: 0 <= k < |p.title| ==> p.title[k] != '-'
  {
    Post(g.path, g.requests, Title(g.path))
  }

  /** `filter(... startsWith("/blog/"))`. */
  function BlogGroups(gs: seq<Group>): (r: seq<Group>)
    ensures |r| <= |gs|
    ensures forall k :: 0 <= k < |r| ==> IsBlogPath(r[k].path)
  {
    if gs == [] then []
    else (if IsBlogPath(gs[0].path) then [gs[0]] else []) + BlogGroups(gs[1..])
  }

  /** `map(...)` to posts. */
  function ToPosts(gs: seq<Group>): (r: seq<Post>)
    ensures |r| == |gs|
    ensures forall k :: 0 <= k < |gs| ==> r[k] == ToPost(gs[k])
  {
    if gs == [] then [] else [ToPost(gs[0])] + ToPosts(gs[1..])
  }

  /** The popular-posts list computed from the analytics records, in the
      order the records arrive. */
  function PopularPosts(gs: seq<Group>): (r: seq<Post>)
    ensures |r| <= TopCount && |r| <= |gs|
    ensures forall k :: 0 <= k < |r| ==> IsBlogPath(r[k].path)
  {
    var posts := ToPosts(BlogGroups(gs));
    if |posts| <= TopCount then posts else posts[..TopCount]
  }

  /** Filtering distributes over concatenation: the filter keeps order. */
  lemma {:induction false} BlogGroupsAppend(a: seq<Group>, b: seq<Group>)
    ensures BlogGroups(a + b) == BlogGroups(a) + BlogGroups(b)
  {
    if a != [] {
      assert (a + b)[1..] == a[1..] + b;
      BlogGroupsAppend(a[1..], b);
    } else {
      assert a + b == b;
    }
  }

  /** A qualifying record sits in the filtered list at the position given by
      the number of qualifying records before it. */
  lemma {:induction false} BlogRecordRank(gs: seq<Group>, i: nat)
    requires i < |gs| && IsBlogPath(gs[i].path)
    ensures |BlogGroups(gs[..i])| < |BlogGroups(gs)|
    ensures BlogGroups(gs)[|BlogGroups(gs[..i])|] == gs[i]
  {
    assert gs == gs[..i] + gs[i..];
    BlogGroupsAppend(gs[..i], gs[i..]);
    assert gs[i..][0] == gs[i];
    assert BlogGroups(gs[i..])[0] == gs[i];
  }

  /** The refresh output holds five posts, or every qualifying record when
      there are fewer than five; and every post has a blog path. */
  lemma PopularPostsSizeAndPaths(gs: seq<Group>)
    ensures |PopularPosts(gs)| == if |BlogGroups(gs)| < TopCount then |BlogGroups(gs)| else TopCount
    ensures forall k :: 0 <= k < |PopularPosts(gs)| ==> IsBlogPath(PopularPosts(gs)[k].path)
  {
  }

  /** Each qualifying record `gs[i]` preceded by fewer than five qualifying
      records appears, path and views copied, at the position given by the
      number of qualifying records before it. With the size above this fixes
      the output as the first five qualifying records in input order. */
  lemma PopularPostsKeepInputOrder(gs: seq<Group>, i: nat)
    requires i < |gs| && IsBlogPath(gs[i].path) && |BlogGroups(gs[..i])| < TopCount
    ensures |BlogGroups(gs[..i])| < |PopularPosts(gs)|
    ensures PopularPosts(gs)[|BlogGroups(gs[..i])|] == Post(gs[i].path, gs[i].requests, Title(gs[i].path))
  {
    BlogRecordRank(gs, i);
    PopularPostAt(gs, |BlogGroups(gs[..i])|);
  }

  /** The k-th post is the post of the k-th qualifying record. */
  lemma PopularPostAt(gs: seq<Group>, k: nat)
    requires k < |BlogGroups(gs)| && k < TopCount
    ensures k < |PopularPosts(gs)| && PopularPosts(gs)[k] == ToPost(BlogGroups(gs)[k])
  {
  }

  /** Counting qualifying records in a prefix looks at the first record,
      then at the rest of the prefix. */
  lemma BlogPrefixCount(gs: seq<Group>, i: nat)
    requires 0 < i <= |gs|
    ensures |BlogGroups(gs[..i])| == (if IsBlogPath(gs[0].path) then 1 else 0) + |BlogGroups(gs[1..][..i - 1])|
  {
    assert gs[..i] == [gs[0]] + gs[1..][..i - 1];
    BlogGroupsAppend([gs[0]], gs[1..][..i - 1]);
  }

  /** Conversely, every entry of the filtered list is a qualifying input
      record, found at the position given by the number of qualifying records
      before it: the filter adds nothing and drops no qualifying record
      before it. */
  lemma {:induction false} BlogGroupsOrigin(gs: seq<Group>, k: nat)
    requires k < |BlogGroups(gs)|
    ensures exists i :: (0 <= i < |gs| && IsBlogPath(gs[i].path) &&
                         |BlogGroups(gs[..i])| == k && BlogGroups(gs)[k] == gs[i])
  {
    var head := if IsBlogPath(gs[0].path) then [gs[0]] else [];
    assert BlogGroups(gs) == head + BlogGroups(gs[1..]);
    if head != [] && k == 0 {
      assert gs[..0] == [];
      assert BlogGroups(gs)[0] == gs[0];
    } else {
      var k' := k - |head|;
      BlogGroupsOrigin(gs[1..], k');
      var i' :| 0 <= i' < |gs[1..]| && IsBlogPath(gs[1..][i'].path) &&
        |BlogGroups(gs[1..][..i'])| == k' && BlogGroups(gs[1..])[k'] == gs[1..][i'];
      BlogPrefixCount(gs, i' + 1);
      assert BlogGroups(gs)[k] == BlogGroups(gs[1..])[k'];
      assert gs[1..][i'] == gs[i' + 1];
    }
  }

  /** Every post of the refresh output is the post of a qualifying input
      record, path and views copied, at that record's rank among qualifying
      records: with `PopularPostsKeepInputOrder` the output is exactly the
      first five qualifying records in input order. */
  lemma PopularPostsHoldOnlyFirstFive(gs: seq<Group>, k: nat)
    requires k < |PopularPosts(gs)|
    ensures exists i :: (0 <= i < |gs| && IsBlogPath(gs[i].path) && |BlogGroups(gs[..i])| == k &&
                         PopularPosts(gs)[k] == Post(gs[i].path, gs[i].requests, Title(gs[i].path)))
  {
    BlogGroupsOrigin(gs, k);
    var i :| 0 <= i < |gs| && IsBlogPath(gs[i].path) &&
      |BlogGroups(gs[..i])| == k && BlogGroups(gs)[k] == gs[i];
    PopularPostAt(gs, k);
  }

  /** A title never contains a dash. */
  lemma TitleHasNoDash(path: string)
    ensures '-' !in Title(path)
  {
  }

  /** For a blog path with no second `/blog/`, the title is the rest of the
      path with dashes as spaces, or "Unknown" when nothing follows `/blog/`. */
  lemma TitleOfSimpleBlogPath(path: string)
    requires IsBlogPath(path)
    requires forall k :: 0 <= k <= |path| - |BlogPrefix| ==> !OccursAt(path[|BlogPrefix|..], BlogPrefix, k)
    ensures Title(path) == if |path| == |BlogPrefix| then UnknownTitle else DashesToSpaces(path[|BlogPrefix|..])
  {
  }

  /** An occurrence in a suffix is an occurrence in the whole string,
      shifted by where the suffix starts. */
  lemma OccursInSuffix(s: string, sep: string, start: nat, k: nat)
    requires start <= |s|
    ensures OccursAt(s[start..], sep, k) <==> OccursAt(s, sep, start + k)
  {
    if start + k + |sep| <= |s| {
      assert s[start..][k..k + |sep|] == s[start + k..start + k + |sep|];
    }
  }

  /** `IndexOf` finds the occurrence with none before it. */
  lemma IndexOfFirst(s: string, sep: string, j: nat)
    requires OccursAt(s, sep, j)
    requires forall k :: 0 <= k < j ==> !OccursAt(s, sep, k)
    ensures IndexOf(s, sep) == Some(j)
  {
  }

  /** `BlogSegment` when the first `/blog/`, at `i`, is followed by another
      `n` characters later. */
  lemma BlogSegmentToNext(path: string, i: nat, rest: string, n: nat)
    requires OccursAt(path, BlogPrefix, i)
    requires forall k :: 0 <= k < i ==> !OccursAt(path, BlogPrefix, k)
    requires rest == path[i + |BlogPrefix|..]
    requires forall k :: 0 <= k < n ==> !OccursAt(rest, BlogPrefix, k)
    requires OccursAt(rest, BlogPrefix, n)
    ensures BlogSegment(path) == Some(rest[..n])
  {
    IndexOfFirst(path, BlogPrefix, i);
    IndexOfFirst(rest, BlogPrefix, n);
  }

  /** `BlogSegment` when the first `/blog/`, at `i`, is the only one. */
  lemma BlogSegmentToEnd(path: string, i: nat, rest: string)
    requires OccursAt(path, BlogPrefix, i)
    requires forall k :: 0 <= k < i ==> !OccursAt(path, BlogPrefix, k)
    requires rest == path[i + |BlogPrefix|..]
    requires forall k :: 0 <= k <= |rest| ==> !OccursAt(rest, BlogPrefix, k)
    ensures BlogSegment(path) == Some(rest)
  {
    IndexOfFirst(path, BlogPrefix, i);
  }

  /** The segment `split("/blog/")[1]` picks for every path: with the first
      `/blog/` at `i`, it is the `n` characters after it, where `n` reaches
      the next `/blog/` or the end of the path. */
  lemma BlogSegmentAt(path: string, i: nat, n: nat)
    requires OccursAt(path, BlogPrefix, i)
    requires forall k :: 0 <= k < i ==> !OccursAt(path, BlogPrefix, k)
    requires i + |BlogPrefix| + n <= |path|
    requires forall k :: i + |BlogPrefix| <= k < i + |BlogPrefix| + n ==> !OccursAt(path, BlogPrefix, k)
    requires i + |BlogPrefix| + n == |path| || OccursAt(path, BlogPrefix, i + |BlogPrefix| + n)
    ensures BlogSegment(path) == Some(path[i + |BlogPrefix|..i + |BlogPrefix| + n])
  {
    var start := i + |BlogPrefix|;
    var rest := path[start..];
    forall k | 0 <= k < n
      ensures !OccursAt(rest, BlogPrefix, k)
    {
      OccursInSuffix(path, BlogPrefix, start, k);
    }
    if start + n < |path| {
      OccursInSuffix(path, BlogPrefix, start, n);
      BlogSegmentToNext(path, i, rest, n);
      assert rest[..n] == path[start..start + n];
    } else {
      assert forall k :: 0 <= k <= |rest| ==> !OccursAt(rest, BlogPrefix, k);
      BlogSegmentToEnd(path, i, rest);
      assert rest == path[start..start + n];
    }
  }

  /** The title of every blog path: the text between the leading `/blog/`
      and the next `/blog/` (or the end), dashes as spaces, or "Unknown"
      when that text is empty. */
  lemma TitleOfBlogPath(path: string, n: nat)
    requires IsBlogPath(path) && |BlogPrefix| + n <= |path|
    requires forall k :: |BlogPrefix| <= k < |BlogPrefix| + n ==> !OccursAt(path, BlogPrefix, k)
    requires |BlogPrefix| + n == |path| || OccursAt(path, BlogPrefix, |BlogPrefix| + n)
    ensures Title(path) == if n == 0 then UnknownTitle else DashesToSpaces(path[|BlogPrefix|..|BlogPrefix| + n])
  {
    assert OccursAt(path, BlogPrefix, 0);
    BlogSegmentAt(path, 0, n);
  }

  /** Dashes in the segment become spaces. */
  lemma TitleReplacesDashes()
    ensures Title("/blog/my-post") == "my post"
  {
    var p := "/blog/my-post";
    var seg := "my-post";
    assert p[|BlogPrefix|..] == seg;
    assert !OccursAt(seg, BlogPrefix, 0) by {
      assert seg[0..6][0] == 'm';
    }
    assert !OccursAt(seg, BlogPrefix, 1) by {
      assert seg[1..7][0] == 'y';
    }
    TitleOfSimpleBlogPath(p);
    DashesToSpacesExample();
  }

  lemma DashesToSpacesExample()
    ensures DashesToSpaces("my-post") == "my post"
  {
  }

  /** Nothing after `/blog/` gives "Unknown". */
  lemma TitleOfBarePrefix()
    ensures Title("/blog/") == "Unknown"
  {
  }

  /** A `/blog/tag/...` path is titled like any other. */
  lemma TitleOfTagPath()
    ensures Title("/blog/tag/x") == "tag/x"
  {
  }

  /** A second `/blog/` ends the segment. */
  lemma TitleStopsAtSecondPrefix()
    ensures Title("/blog/a/blog/b") == "a"
  {
    var p := "/blog/a/blog/b";
    assert OccursAt(p, BlogPrefix, 0);
    assert IndexOf(p, BlogPrefix) == Some(0);
    var rest := p[|BlogPrefix|..];
    assert rest == "a/blog/b";
    assert OccursAt(rest, BlogPrefix, 1);
    assert !OccursAt(rest, BlogPrefix, 0) by {
      assert rest[0..6][0] == 'a';
    }
    assert IndexOf(rest, BlogPrefix) == Some(1);
    assert rest[..1] == "a";
    assert DashesToSpaces("a") == "a";
  }

  /** The five records of the example below. */
  function ExampleRecords(): seq<Group>
  {
    [Group("/blog/my-post", 50), Group("/blog/", 40), Group("/blog/tag/x", 30),
     Group("/about", 20), Group("/blog/other", 10)]
  }

  /** The filter looks at one record at a time. */
  lemma BlogGroupsCons(g: Group, rest: seq<Group>)
    ensures BlogGroups([g] + rest) == (if IsBlogPath(g.path) then [g] else []) + BlogGroups(rest)
  {
    assert ([g] + rest)[1..] == rest;
  }

  /** Of five records, the filter drops exactly the one whose path is not a
      blog path. */
  lemma FilterDropsFourth(g0: Group, g1: Group, g2: Group, g3: Group, g4: Group)
    requires IsBlogPath(g0.path) && IsBlogPath(g1.path) && IsBlogPath(g2.path)
    requires !IsBlogPath(g3.path) && IsBlogPath(g4.path)
    ensures BlogGroups([g0, g1, g2, g3, g4]) == [g0, g1, g2, g4]
  {
    var s4: seq<Group> := [g4];
    var s3 := [g3] + s4;
    var s2 := [g2] + s3;
    var s1 := [g1] + s2;
    BlogGroupsCons(g4, []);
    assert s4 == [g4] + [];
    BlogGroupsCons(g3, s4);
    BlogGroupsCons(g2, s3);
    BlogGroupsCons(g1, s2);
    BlogGroupsCons(g0, s1);
    assert [g0, g1, g2, g3, g4] == [g0] + s1;
    assert [g0] + ([g1] + ([g2] + [g4])) == [g0, g1, g2, g4];
  }

  /** The filter drops only `/about` from the example records. */
  lemma ExampleFilter()
    ensures BlogGroups(ExampleRecords()) == [ExampleRecords()[0], ExampleRecords()[1], ExampleRecords()[2], ExampleRecords()[4]]
  {
    var gs := ExampleRecords();
    assert !IsBlogPath(gs[3].path) by {
      assert gs[3].path[1] == 'a';
    }
    FilterDropsFourth(gs[0], gs[1], gs[2], gs[3], gs[4]);
    assert gs == [gs[0], gs[1], gs[2], gs[3], gs[4]];
  }

  /** Four records map to four posts, in order. */
  lemma ToPostsOfFour(a: Group, b: Group, c: Group, d: Group)
    ensures ToPosts([a, b, c, d]) == [ToPost(a), ToPost(b), ToPost(c), ToPost(d)]
  {
  }

  /** Five analytics records in descending order of requests: `/about` is
      dropped, while `/blog/` and `/blog/tag/x` are kept, and the order is
      the input's. */
  lemma RefreshExample()
    ensures PopularPosts(ExampleRecords()) ==
      [Post("/blog/my-post", 50, "my post"), Post("/blog/", 40, "Unknown"),
       Post("/blog/tag/x", 30, "tag/x"), Post("/blog/other", 10, "other")]
  {
    var gs := ExampleRecords();
    ExampleFilter();
    ToPostsOfFour(gs[0], gs[1], gs[2], gs[4]);
    TitleReplacesDashes();
    TitleOfBarePrefix();
    TitleOfTagPath();
    TitleOfPlainPath();
    assert ToPost(gs[0]) == Post("/blog/my-post", 50, "my post");
    assert ToPost(gs[1]) == Post("/blog/", 40, "Unknown");
    assert ToPost(gs[2]) == Post("/blog/tag/x", 30, "tag/x");
    assert ToPost(gs[4]) == Post("/blog/other", 10, "other");
  }

  /** A path without dashes is its own title. */
  lemma TitleOfPlainPath()
    ensures Title("/blog/other") == "other"
  {
  }
}
