# Site Counts block — verified model

The Site Counts plugin registers one dynamic block whose render callback
(`Block::render_callback`) prints two things:

- **Post Counts**: one line per public post type, in the order the post-type
  registry returns them, "There are N Label", where N is `absint` of the type's
  publish count.
- **Any 5 posts with the tag of foo and the category of baz**: the query's
  results are cut to the first five (`array_slice(..., 0, 5)`). Then the loop
  skips the post being rendered, and skips every post whose category slugs
  lack `baz` or whose tag slugs lack `foo`. The titles of the remaining posts
  are listed in query order. A `get_the_tags` / `get_the_category` result that
  is not an array counts as an empty list. The heading is printed whenever the
  query returned at least one post, even if the list ends up empty.

The model takes every WordPress call's result as a parameter:

- the public post types, each with its label and publish count;
- the ID of the current post (`get_the_ID()`, which is also `$post->ID`);
- the posts the query returned, each carrying its tags and categories, or
  `None` when those calls did not return an array.

Modules:

- `Wrappers` (`wrappers.dfy`): `Option`.
- `Php` (`php.dfy`): `absint` and `array_slice`.
- `PostCounts` (`post_counts.dfy`): the count list, as a specification function
  `CountLines` and the loop `RenderCounts` proved equal to it.
- `PostSelection` (`post_selection.dfy`): the selection.
  - `Survivors` filters the capped list.
  - `Shown` is the sequence of listed posts, in query order, and `Select` their titles.
  - `ListItems` is the `foreach` with its two `continue` skips, proved equal to
    the specification.
  - `RenderList` is the `have_posts()` branch.
  - Lemmas state soundness, completeness, order and the cap-before-filter
    behaviour.
- `Block` (`block.dfy`): `RenderCallback`, which composes the two halves.

The cap is applied before the filter, as the code does. With more than five
query results, fewer than five posts may be listed even when five or more
qualify. `ShownIgnoresLaterResults` and `SixthResultDropped` state this.

## Model

| member | source | states |
|---|---|---|
| `Php.Absint` | php/Block.php:85 | the printed count is a non-negative integer equal to the count or its negation |
| `Php.ArraySlice` | php/Block.php:126 | the slice has at most `length` elements, exactly `length` when `a` has that many elements from `offset` on, otherwise all of `a` from `offset` on, and element i is `a[offset + i]` |
| `PostCounts.LineFor` | php/Block.php:82-87 | one `<li>` of the count list: the type's label and the magnitude of its publish count (the count itself when it is not negative) |
| `PostCounts.CountLines` | php/Block.php:76-90 | one line per public post type, same length and same order; line i carries type i's label and `absint` of its publish count |
| `PostCounts.RenderCounts` | php/Block.php:76-90 | the `foreach` over the post types produces exactly `CountLines` of them |
| `PostCounts.ZeroCountListed` | php/Block.php:76-87 | a post type with zero published posts still gets its line, with count 0 |
| `PostCounts.PostsAndPagesExample` | php/Block.php:76-90 | Posts (3 published) and Pages (1 published) give the lines "3 Posts" then "1 Pages" |
| `PostSelection.SlugList` | php/Block.php:135-136 | a non-array result gives no slugs; an array gives one slug per term, in order, the i-th being term i's slug; `SlugListMembership` is its membership partner |
| `PostSelection.SlugListMembership` | php/Block.php:133-136 | a slug is in the plucked slug list iff the tags/categories result is an array holding a term with that slug; a non-array result gives no slugs |
| `PostSelection.Qualifies` | php/Block.php:128-144 | a post passes both `continue` tests iff its ID is not excluded, its categories result is an array holding a term with slug `baz` and its tags result is an array holding a term with slug `foo` |
| `PostSelection.Survivors` | php/Block.php:127-144 | the survivors are no more than the input, and every survivor is an input post that is not excluded and has `baz` and `foo` |
| `PostSelection.SurvivorsComplete` | php/Block.php:127-146 | every input post that passes both tests is among the survivors |
| `PostSelection.SurvivorsSubsequence` | php/Block.php:126-148 | the survivors are a subsequence of the input: an increasing index map embeds them in their original order |
| `PostSelection.SurvivorsCount` | php/Block.php:126-146 | the number of survivors equals the number of input positions that pass both tests, so a post repeated in the input is printed as many times as it occurs |
| `PostSelection.SurvivorsEmpty` | php/Block.php:139-144 | when no input post passes both tests, nothing survives |
| `PostSelection.Titles` | php/Block.php:146 | one title per listed post, the i-th being the i-th post's `post_title` |
| `PostSelection.Shown` | php/Block.php:102-144 | at most five posts and at most as many as the query returned; none has the current post's ID; each has category slug `baz` and tag slug `foo` |
| `PostSelection.Select` | php/Block.php:126-148 | the number of printed titles is at most 5 and at most the number of query results |
| `PostSelection.ShownMembership` | php/Block.php:126-144 | a post is listed iff it is among the first five results and passes the exclusion and both slug tests |
| `PostSelection.ShownComplete` | php/Block.php:126-146 | every post at index below 5 of the query result that is not the current post and has both `baz` and `foo` is listed |
| `PostSelection.ShownInQueryOrder` | php/Block.php:126-148 | the listed posts are a subsequence of the first five results, in query order |
| `PostSelection.ShownIgnoresLaterResults` | php/Block.php:126 | once the query returned five posts, anything it returned after them does not change the list: truncation happens before filtering |
| `PostSelection.NotAnArrayNeverShown` | php/Block.php:133-144 | a post whose tags or categories result is not an array is never listed |
| `PostSelection.SelectTitles` | php/Block.php:146 | the printed titles correspond one to one, in order, to the listed posts' titles |
| `PostSelection.ListItems` | php/Block.php:126-148 | the loop with its two `continue` skips appends exactly the titles of the survivors, in order |
| `PostSelection.RenderList` | php/Block.php:102-148 | the second heading is printed iff the query returned at least one post, and the list printed is `Select` of the results with the current post excluded |
| `PostSelection.SixthResultDropped` | php/Block.php:126-144 | six results of which only the sixth qualifies print an empty list: the cap drops the sixth |
| `PostSelection.CurrentAndUntaggedSkipped` | php/Block.php:102-146 | with current post 42, results 42 (foo, baz), 7 (foo, baz) and 8 (no tags, baz) print only post 7's title |
| `Block.RenderCallback` | php/Block.php:65-155 | the class name passes through; the count list is `CountLines`; the current ID shown is `absint` of it; the second heading appears iff the query returned posts; its items are `Select` and number at most 5 |

## Left out

- Block registration (`init`, `register_block`, `add_action`, `register_block_type_from_metadata`): host-framework plumbing with no behaviour of its own.
- Running `WP_Query`: the post types `post` and `page`, status `any`, the `date_query` hour clauses (hour ≥ 9 and hour ≤ 17) and the default page size are applied inside WordPress. The query result is a parameter. Nothing is proved about which posts it contains or how the two hour clauses combine.
- `get_post_types`, `get_post_type_object`, `wp_count_posts`, `get_the_tags`, `get_the_category`: foreign calls. Their results are parameters. `wp_list_pluck(..., 'slug')` is modelled as `SlugList`.
- HTML markup, output buffering, escaping (`esc_attr`, `esc_html`), translated strings and `sprintf` formatting. The model yields the values that are printed, not the markup. The stray `</ul>` printed when the query returns nothing is markup only.
- The `global $post` ambient state: the current post's ID is one explicit parameter. It serves both as `get_the_ID()` for the exclusion list and as `$post->ID` for the printed ID.
- `get_the_ID()` returning `false` when there is no current post is not modelled. The current ID is always an integer.
- The loose comparison of `in_array` at line 128: IDs are integers, so integer equality is used.
- `Php.Absint`: only integer inputs are modelled, not PHP's conversion of numeric strings.
