/**
 * The Site Counts block's render callback, with every WordPress call it
 * makes replaced by its result, passed in as a parameter.
 */
module Block {
  import Php
  import PostCounts
  import PostSelection

  /** What one render prints, before markup and escaping. */
  datatype Rendering = Rendering(
    className: string,                    // the wrapper div's class attribute
    counts: seq<PostCounts.CountLine>,    // the "Post Counts" list
    currentId: nat,                       // "The current post ID is ..."
    listHeading: bool,                    // whether the "Any 5 posts ..." section is printed
    items: seq<string>)                   // the titles of that section's list

  /**
   * render_callback for block attribute `className`, the public post types
   * `postTypes` (each with its label and publish count), the post being
   * rendered `currentId` and the posts the block's query returned.
   */
  method RenderCallback(className: string, postTypes: seq<PostCounts.PostType>,
                        currentId: int, queryPosts: seq<PostSelection.Post>)
    returns (out: Rendering)
    ensures out.className == className
    ensures out.counts == PostCounts.CountLines(postTypes)
    ensures out.currentId == Php.Absint(currentId)
    ensures out.listHeading <==> |queryPosts| > 0
    ensures out.items == PostSelection.Select(queryPosts, currentId)
    ensures |out.items| <= PostSelection.MaxCandidates
  {
    var counts := PostCounts.RenderCounts(postTypes);
    var heading, items := PostSelection.RenderList(queryPosts, currentId);
    out := Rendering(className, counts, Php.Absint(currentId), heading, items);
  }
}
