/**
 * The second half of the Site Counts block: from the posts the query
 * returned, keep the first five, skip the post being rendered, skip every
 * post that lacks the category slug `baz` or the tag slug `foo`, and list
 * the titles of the rest in query order.
 */
module PostSelection {
  import opened Wrappers
  import Php

  /** How many query results the block looks at (array_slice(..., 0, 5)). */
  const MaxCandidates: nat := 5
  /** The category slug a listed post must carry. */
  const RequiredCategory: string := "baz"
  /** The tag slug a listed post must carry. */
  const RequiredTag: string := "foo"

  /** A taxonomy term (tag or category); the block reads only its slug. */
  datatype Term = Term(name: string, slug: string)

  /**
   * A post of the query result. `tags` and `cats` are what get_the_tags and
   * get_the_category return for its ID: Some(terms) for an array of terms,
   * None for anything else (false, a WP_Error).
   */
  datatype Post = Post(id: int, title: string, tags: Option<seq<Term>>, cats: Option<seq<Term>>)

  /** `is_array($r) ? wp_list_pluck($r, 'slug') : []`. */
  function SlugList(r: Option<seq<Term>>): (slugs: seq<string>)
    ensures r.None? ==> slugs == []
    ensures r.Some? ==> |slugs| == |r.value| &&
                        forall i :: 0 <= i < |slugs| ==> slugs[i] == r.value[i].slug
  {
    match r
    case None => []
    case Some(ts) => seq(|ts|, i requires 0 <= i < |ts| => ts[i].slug)
  }

  /** True when `r` is an array holding a term whose slug is `slug`. */
  ghost predicate HasTermWithSlug(r: Option<seq<Term>>, slug: string)
  {
    r.Some? && exists t :: t in r.value && t.slug == slug
  }

  /** A slug is in the plucked list exactly when an array result has a term with that slug. */
  lemma SlugListMembership(r: Option<seq<Term>>, slug: string)
    ensures slug in SlugList(r) <==> HasTermWithSlug(r, slug)
  {
    if r.Some? {
      var ts := r.value;
      if slug in SlugList(r) {
        var i :| 0 <= i < |ts| && SlugList(r)[i] == slug;
        assert ts[i] in ts && ts[i].slug == slug;
      }
      if HasTermWithSlug(r, slug) {
        var t :| t in ts && t.slug == slug;
        var i :| 0 <= i < |ts| && ts[i] == t;
        assert SlugList(r)[i] == slug;
      }
    }
  }

  /**
   * The two `continue` tests of the loop, passed: the post's ID is not in
   * the exclusion list, its category slugs hold `baz` and its tag slugs hold `foo`.
   */
  predicate Qualifies(p: Post, excluded: seq<int>)
    ensures Qualifies(p, excluded) <==>
            p.id !in excluded &&
            HasTermWithSlug(p.cats, RequiredCategory) &&
            HasTermWithSlug(p.tags, RequiredTag)
  {
    SlugListMembership(p.cats, RequiredCategory);
    SlugListMembership(p.tags, RequiredTag);
    p.id !in excluded &&
    RequiredCategory in SlugList(p.cats) &&
    RequiredTag in SlugList(p.tags)
  }

  /** The posts of `s` that pass both tests, in the order of `s`. */
  function Survivors(s: seq<Post>, excluded: seq<int>): (r: seq<Post>)
    ensures |r| <= |s|
    ensures forall p :: p in r ==> p in s && Qualifies(p, excluded)
  {
    if s == [] then []
    else
      var rest := Survivors(s[..|s| - 1], excluded);
      if Qualifies(s[|s| - 1], excluded) then rest + [s[|s| - 1]] else rest
  }

  /** The titles of `ps`, in order. */
  function Titles(ps: seq<Post>): (ts: seq<string>)
    ensures |ts| == |ps|
    ensures forall i :: 0 <= i < |ps| ==> ts[i] == ps[i].title
  {
    if ps == [] then [] else Titles(ps[..|ps| - 1]) + [ps[|ps| - 1].title]
  }

  /**
   * The posts the block lists for query result `posts` while post `current`
   * is being rendered: the survivors among the first five results, the
   * exclusion list being `[current]`.
   */
  function Shown(posts: seq<Post>, current: int): (r: seq<Post>)
    ensures |r| <= MaxCandidates && |r| <= |posts|
    ensures forall p :: p in r ==>
              p.id != current &&
              RequiredCategory in SlugList(p.cats) &&
              RequiredTag in SlugList(p.tags)
  {
    Survivors(Php.ArraySlice(posts, 0, MaxCandidates), [current])
  }

  /** The titles the block prints, one `<li>` each. */
  function Select(posts: seq<Post>, current: int): (titles: seq<string>)
    ensures |titles| <= MaxCandidates && |titles| <= |posts|
  {
    Titles(Shown(posts, current))
  }

  /** `idx` lists, in increasing order, positions of `b` that hold `a`'s elements in turn. */
  ghost predicate IsEmbedding<T>(idx: seq<nat>, a: seq<T>, b: seq<T>)
  {
    |idx| == |a| &&
    (forall i :: 0 <= i < |idx| ==> idx[i] < |b| && a[i] == b[idx[i]]) &&
    (forall i, j :: 0 <= i < j < |idx| ==> idx[i] < idx[j])
  }

  /** `a` is `b` with some elements left out and the rest in their original order. */
  ghost predicate Subsequence<T>(a: seq<T>, b: seq<T>)
  {
    exists idx :: IsEmbedding(idx, a, b)
  }

  /** The survivors keep the order they had in the input. */
  lemma {:induction false} SurvivorsSubsequence(s: seq<Post>, excluded: seq<int>)
    ensures Subsequence(Survivors(s, excluded), s)
  {
    if s == [] {
      assert IsEmbedding([], Survivors(s, excluded), s);
    } else {
      var init := s[..|s| - 1];
      var last := s[|s| - 1];
      SurvivorsSubsequence(init, excluded);
      var rest := Survivors(init, excluded);
      var idx: seq<nat> :| IsEmbedding(idx, rest, init);
      forall i | 0 <= i < |idx|
        ensures idx[i] < |s| - 1 && rest[i] == s[idx[i]]
      {
        assert init[idx[i]] == s[idx[i]];
      }
      if Qualifies(last, excluded) {
        var idx' := idx + [|s| - 1];
        assert forall i :: 0 <= i < |idx| ==> idx'[i] == idx[i] && (rest + [last])[i] == rest[i];
        assert IsEmbedding(idx', rest + [last], s);
      } else {
        assert IsEmbedding(idx, rest, s);
      }
    }
  }

  /** When no input post qualifies, nothing survives. */
  lemma {:induction false} SurvivorsEmpty(s: seq<Post>, excluded: seq<int>)
    requires forall i :: 0 <= i < |s| ==> !Qualifies(s[i], excluded)
    ensures Survivors(s, excluded) == []
  {
    if s != [] {
      var init := s[..|s| - 1];
      assert forall i :: 0 <= i < |init| ==> init[i] == s[i];
      SurvivorsEmpty(init, excluded);
    }
  }

  /** The indices of `s` whose posts pass both tests. */
  ghost function QualifyingIndices(s: seq<Post>, excluded: seq<int>): set<nat>
  {
    set i: nat | i < |s| && Qualifies(s[i], excluded)
  }

  /** Adding one post to the input adds its position when it qualifies. */
  lemma QualifyingIndicesStep(s: seq<Post>, excluded: seq<int>)
    requires s != []
    ensures QualifyingIndices(s, excluded) ==
            QualifyingIndices(s[..|s| - 1], excluded) +
            (if Qualifies(s[|s| - 1], excluded) then {|s| - 1} else {})
  {
    var n := |s| - 1;
    forall i: nat
      ensures i in QualifyingIndices(s, excluded) <==>
              i in QualifyingIndices(s[..n], excluded) ||
              (i == n && Qualifies(s[n], excluded))
    {
      if i < n {
        assert s[..n][i] == s[i];
      }
    }
  }

  /**
   * There are exactly as many survivors as qualifying positions in the
   * input, so a post the input holds twice is listed twice.
   */
  lemma {:induction false} SurvivorsCount(s: seq<Post>, excluded: seq<int>)
    ensures |Survivors(s, excluded)| == |QualifyingIndices(s, excluded)|
  {
    if s != [] {
      var n := |s| - 1;
      SurvivorsCount(s[..n], excluded);
      QualifyingIndicesStep(s, excluded);
      assert n !in QualifyingIndices(s[..n], excluded);
    }
  }

  /** Every qualifying post of the input survives. */
  lemma {:induction false} SurvivorsComplete(s: seq<Post>, excluded: seq<int>, i: nat)
    requires i < |s| && Qualifies(s[i], excluded)
    ensures s[i] in Survivors(s, excluded)
  {
    if i < |s| - 1 {
      var init := s[..|s| - 1];
      assert init[i] == s[i];
      SurvivorsComplete(init, excluded, i);
    }
  }

  /** A post is listed exactly when it is among the first five results and passes both tests. */
  lemma ShownMembership(posts: seq<Post>, current: int, p: Post)
    ensures p in Shown(posts, current) <==>
            p in Php.ArraySlice(posts, 0, MaxCandidates) && Qualifies(p, [current])
  {
    var slice := Php.ArraySlice(posts, 0, MaxCandidates);
    if p in slice && Qualifies(p, [current]) {
      var i :| 0 <= i < |slice| && slice[i] == p;
      SurvivorsComplete(slice, [current], i);
    }
  }

  /**
   * Completeness: every post among the first five results that is not the
   * current post and carries both `baz` and `foo` is listed.
   */
  lemma ShownComplete(posts: seq<Post>, current: int, i: nat)
    requires i < |posts| && i < MaxCandidates
    requires posts[i].id != current
    requires RequiredCategory in SlugList(posts[i].cats)
    requires RequiredTag in SlugList(posts[i].tags)
    ensures posts[i] in Shown(posts, current)
  {
    var slice := Php.ArraySlice(posts, 0, MaxCandidates);
    assert slice[i] == posts[i];
    SurvivorsComplete(slice, [current], i);
  }

  /** The listed posts appear in the first five results, in the same order. */
  lemma ShownInQueryOrder(posts: seq<Post>, current: int)
    ensures Subsequence(Shown(posts, current), Php.ArraySlice(posts, 0, MaxCandidates))
  {
    SurvivorsSubsequence(Php.ArraySlice(posts, 0, MaxCandidates), [current]);
  }

  /**
   * The cap comes before the filter: once the query returned five posts,
   * whatever it returned after them changes nothing in the list.
   */
  lemma ShownIgnoresLaterResults(posts: seq<Post>, later: seq<Post>, current: int)
    requires |posts| >= MaxCandidates
    ensures Shown(posts + later, current) == Shown(posts, current)
  {
    assert Php.ArraySlice(posts + later, 0, MaxCandidates) == Php.ArraySlice(posts, 0, MaxCandidates);
  }

  /** A post whose tags or categories are not an array is never listed. */
  lemma NotAnArrayNeverShown(posts: seq<Post>, current: int, p: Post)
    requires p.tags.None? || p.cats.None?
    ensures p !in Shown(posts, current)
  {
  }

  /** The listed titles are the listed posts' titles, one to one and in order. */
  lemma SelectTitles(posts: seq<Post>, current: int, i: nat)
    requires i < |Shown(posts, current)|
    ensures |Select(posts, current)| == |Shown(posts, current)|
    ensures Select(posts, current)[i] == Shown(posts, current)[i].title
  {
  }

  /** Processing one more input post adds it to the survivors exactly when it qualifies. */
  lemma SurvivorsStep(s: seq<Post>, excluded: seq<int>, k: nat)
    requires k < |s|
    ensures Survivors(s[..k + 1], excluded) ==
            Survivors(s[..k], excluded) + (if Qualifies(s[k], excluded) then [s[k]] else [])
  {
    assert s[..k + 1][..k] == s[..k];
    assert s[..k + 1][k] == s[k];
  }

  /** Adding one processed post to the loop's prefix extends the list by exactly its title. */
  lemma TitlesAppend(ps: seq<Post>, p: Post)
    ensures Titles(ps + [p]) == Titles(ps) + [p.title]
  {
  }

  /**
   * The foreach over the capped results: each post is skipped when its ID is
   * excluded or it lacks `baz` or `foo`, otherwise its title is appended.
   */
  method ListItems(candidates: seq<Post>, postsToExclude: seq<int>) returns (items: seq<string>)
    ensures items == Titles(Survivors(candidates, postsToExclude))
  {
    items := [];
    for k := 0 to |candidates|
      invariant items == Titles(Survivors(candidates[..k], postsToExclude))
    {
      var postItem := candidates[k];
      SurvivorsStep(candidates, postsToExclude, k);
      if postItem.id in postsToExclude {
        continue;
      }
      var tags := SlugList(postItem.tags);
      var categories := SlugList(postItem.cats);
      if RequiredCategory !in categories || RequiredTag !in tags {
        continue;
      }
      TitlesAppend(Survivors(candidates[..k], postsToExclude), postItem);
      items := items + [postItem.title];
    }
    assert candidates[..|candidates|] == candidates;
  }

  /**
   * The `if have_posts()` branch of render_callback: `heading` is whether the
   * "Any 5 posts ..." heading and its list are printed, `items` the titles
   * of the `<li>` elements, in order.
   */
  method RenderList(posts: seq<Post>, current: int) returns (heading: bool, items: seq<string>)
    ensures heading <==> |posts| > 0
    ensures items == Select(posts, current)
  {
    var postsToExclude := [current];
    heading := |posts| > 0;
    items := [];
    if heading {
      items := ListItems(Php.ArraySlice(posts, 0, MaxCandidates), postsToExclude);
    }
  }

  /** Six results where only the sixth qualifies: the cap drops it and nothing is listed. */
  lemma SixthResultDropped()
    ensures Select(
      [ Post(1, "a", None, None), Post(2, "b", None, None), Post(3, "c", None, None),
        Post(4, "d", None, None), Post(5, "e", None, None),
        Post(6, "f", Some([Term("Foo", "foo")]), Some([Term("Baz", "baz")])) ], 0) == []
  {
    var posts := [ Post(1, "a", None, None), Post(2, "b", None, None), Post(3, "c", None, None),
                   Post(4, "d", None, None), Post(5, "e", None, None),
                   Post(6, "f", Some([Term("Foo", "foo")]), Some([Term("Baz", "baz")])) ];
    SurvivorsEmpty(Php.ArraySlice(posts, 0, MaxCandidates), [0]);
  }

  /**
   * Current post 42 and results [42 (foo, baz), 7 (foo, baz), 8 (no tags, baz)]:
   * only post 7 is listed.
   */
  lemma CurrentAndUntaggedSkipped()
    ensures Select(
      [ Post(42, "current", Some([Term("Foo", "foo")]), Some([Term("Baz", "baz")])),
        Post(7, "seven", Some([Term("Foo", "foo")]), Some([Term("Baz", "baz")])),
        Post(8, "eight", Some([]), Some([Term("Baz", "baz")])) ], 42) == ["seven"]
  {
    var posts := [ Post(42, "current", Some([Term("Foo", "foo")]), Some([Term("Baz", "baz")])),
                   Post(7, "seven", Some([Term("Foo", "foo")]), Some([Term("Baz", "baz")])),
                   Post(8, "eight", Some([]), Some([Term("Baz", "baz")])) ];
    assert Php.ArraySlice(posts, 0, MaxCandidates) == posts;
    assert SlugList(posts[1].tags) == ["foo"];
    assert SlugList(posts[1].cats) == ["baz"];
    assert SlugList(posts[2].tags) == [];
    assert posts[..0] == [] && posts[..3] == posts;
    SurvivorsStep(posts, [42], 0);
    SurvivorsStep(posts, [42], 1);
    SurvivorsStep(posts, [42], 2);
    assert Shown(posts, 42) == [posts[1]];
  }
}
