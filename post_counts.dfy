/**
 * The "Post Counts" list of the Site Counts block: one line per public post
 * type, in the order the post-type registry returns them, giving the absint
 * of the type's publish count and the type's plural label.
 */
module PostCounts {
  import Php

  /**
   * A public post type, as far as the block reads it: its slug (the argument
   * to get_post_type_object / wp_count_posts), its plural label
   * ($post_type_object->labels->name) and its publish count
   * (wp_count_posts(...)->publish).
   */
  datatype PostType = PostType(slug: string, labelName: string, publishCount: int)

  /** One `<li>` of the list: "There are <count> <label>". */
  datatype CountLine = CountLine(count: nat, labelName: string)

  /** The line the block prints for one post type. */
  function LineFor(t: PostType): (line: CountLine)
    ensures line.labelName == t.labelName
    ensures t.publishCount >= 0 ==> line.count == t.publishCount
    ensures t.publishCount < 0 ==> line.count == -t.publishCount
  {
    CountLine(Php.Absint(t.publishCount), t.labelName)
  }

  /** The whole list for the registry's public post types, in registry order. */
  function CountLines(types: seq<PostType>): (lines: seq<CountLine>)
    ensures |lines| == |types|
    ensures forall i :: 0 <= i < |types| ==>
              lines[i].labelName == types[i].labelName &&
              lines[i].count == Php.Absint(types[i].publishCount)
  {
    if types == [] then []
    else CountLines(types[..|types| - 1]) + [LineFor(types[|types| - 1])]
  }

  /** The foreach over the public post types that prints one line each. */
  method RenderCounts(types: seq<PostType>) returns (lines: seq<CountLine>)
    ensures lines == CountLines(types)
  {
    lines := [];
    for k := 0 to |types|
      invariant lines == CountLines(types[..k])
    {
      assert types[..k + 1][..k] == types[..k];
      var postCount := types[k].publishCount;
      lines := lines + [CountLine(Php.Absint(postCount), types[k].labelName)];
    }
    assert types[..|types|] == types;
  }

  /** A type with no published posts still gets its line, with count 0. */
  lemma ZeroCountListed(types: seq<PostType>, i: nat)
    requires i < |types| && types[i].publishCount == 0
    ensures CountLines(types)[i] == CountLine(0, types[i].labelName)
  {
  }

  /** Posts (3 published) and Pages (1 published) give "3 Posts", "1 Pages". */
  lemma PostsAndPagesExample()
    ensures CountLines([PostType("post", "Posts", 3), PostType("page", "Pages", 1)])
            == [CountLine(3, "Posts"), CountLine(1, "Pages")]
  {
  }
}
