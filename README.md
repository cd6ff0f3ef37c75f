# Article model: category queries, slider fragments and validation rules

This project models the core of the `Article` ActiveRecord model of the
admin module (`modules/admin/models/Article.php`):

- `getByCategory($category, $limit)` resolves a category slug to an id,
  selects the articles whose `category_id` equals that id, orders them by
  `id` descending and applies the limit only when it is truthy in PHP. An
  unknown slug is not short-circuited: the code filters on whatever the
  slug lookup returns, which the model takes to be null, so the filter
  becomes `category_id IS NULL`;
- `slideNews`, `slideEquipment` and `slideBranches` turn at most five news
  articles (those with the largest ids), all equipment articles and all
  branch articles into one markup fragment each: a news title/text pair, a
  dark "card-md" card, or a card whose class attribute is `card-sm `
  followed by the article's `view` verbatim (nothing after the space when
  `view` is null, possibly several classes otherwise);
- `rules()`, the validation rules the record must pass before it is
  saved: required fields, integer and string types, length limits and the
  slug pattern.

Files and modules:

| file | module | contents |
|---|---|---|
| `wrappers.dfy` | `Wrappers` | `Option` |
| `php.dfy` | `Php` | the scalar an attribute holds (`Null`, a string or an integer) and PHP's string conversion of `null` |
| `html.dfy` | `Html` | markup as a tree (`Element`, `Text`, `Image`, `Button`) with lookup helpers for classes, attributes and the content of a labelled `div` part |
| `articles.dfy` | `Articles` | the article record, its rule list as data, `ValidArticle` and the slug pattern |
| `query.dfy` | `Query` | the table as a sequence, the filter, the id-descending sort, the limit, the query object `ArticleQuery` and `GetByCategory` |
| `slides.dfy` | `Slides` | the three fragment builders, the three slide loops and the fragment shape lemmas |

The database table is a `seq<Article>` and the category table a
`map<string, int>` from slug to id. `ArticleQuery` is a class because the
source builds a query object and changes its limit in place; the slide
builders are methods with the source's `foreach` loop, each proved to
produce exactly one fragment per selected article, in order.

## Model

| member | source | states |
|---|---|---|
| Articles.ValidArticleMeans | modules/admin/models/Article.php:57-67 | a record passes every rule iff slug, title, body and category are present and not blank after trimming, slug, thumbnail base URL and thumbnail path have at most 1024 characters, title at most 512, view at most 255, and the slug is accepted by the pattern as written: a non-empty run of letters, digits, `-` and `_`, optionally followed by one newline |
| Articles.ValidArticleIntendedMeans | modules/admin/models/Article.php:64 | the intended rules accept exactly the records the written rules accept whose slug holds no newline; a record accepted by the written rules only has a slug that is a token followed by one newline |
| Articles.TrailingNewlineRecordAccepted | modules/admin/models/Article.php:57-67 | a record with slug `"news\n"`, title, body and category passes the rules as written but not the intended rules |
| Articles.ValidArticleHasCategory | modules/admin/models/Article.php:60 | every valid record has a category id |
| Articles.TrailingNewlineSlugAccepted | modules/admin/models/Article.php:64 | the pattern as written accepts `"news\n"`, which contains a character outside the allowed set |
| Articles.SlugTokenIsPatternWithoutNewline | modules/admin/models/Article.php:64 | the corrected slug test is exactly the written pattern restricted to strings with no newline |
| Query.MatchingCounts | modules/admin/models/Article.php:133 | the filter keeps every row with the wanted category as often as it is stored and no other row |
| Query.SortByIdDescSorts | modules/admin/models/Article.php:133 | ordering by id descending yields a non-increasing sequence of the same rows (a permutation) |
| Query.RowsFacts | modules/admin/models/Article.php:133-137 | the rows fetched are table rows of the category, ordered by descending id, a sub-multiset of the matches, at most the limit many, and all matches when no limit is set |
| Query.ArticleQuery.constructor | modules/admin/models/Article.php:133 | a new query holds the table and category and has no limit |
| Query.ArticleQuery.SetLimit | modules/admin/models/Article.php:135 | setting the limit records it and changes nothing else |
| Query.ArticleQuery.All | modules/admin/models/Article.php:137 | the query's result has members of the category only, in descending id order, and no more rows than the limit |
| Query.GetByCategory | modules/admin/models/Article.php:130-138 | the method returns the selection for the resolved category, limited only when the limit is truthy |
| Query.ByCategoryMembers | modules/admin/models/Article.php:132-133 | every returned article is stored in the table and has the resolved category id |
| Query.ByCategoryOrdered | modules/admin/models/Article.php:133 | the result is ordered by id, non-increasing, and strictly decreasing when ids are unique |
| Query.ByCategoryUnlimited | modules/admin/models/Article.php:134-137 | with a null or zero limit the result holds every matching article exactly as often as stored |
| Query.ByCategoryLimited | modules/admin/models/Article.php:134-137 | with a truthy limit L the result has min(L, matches) articles and no omitted match has a larger id than a returned one (a strictly smaller id when ids are unique) |
| Query.UnknownSlugYieldsNothing | modules/admin/models/Article.php:132-133 | an unknown slug gives an empty result whenever every stored row has a category |
| Query.UnknownSlugOnValidTable | modules/admin/models/Article.php:60 | an unknown slug gives an empty result on a table of records that pass the rules, since the required category rules out null categories |
| Slides.SlideNews | modules/admin/models/Article.php:143-153 | one news slide per article of the news query with limit 5, in the query's order |
| Slides.SlideEquipment | modules/admin/models/Article.php:158-177 | one equipment card per article of the unlimited equipment query, in order |
| Slides.SlideBranches | modules/admin/models/Article.php:182-202 | one branch card per article of the unlimited branches query, in order |
| Slides.NewsItemsAreLatestFive | modules/admin/models/Article.php:145 | the news selection has min(5, news count) articles of the news category, newest id first, and no left-out news article has a larger id |
| Slides.UnlimitedSlidesCoverCategory | modules/admin/models/Article.php:160-184 | equipment and branch selections hold every article of their category exactly as often as stored, in descending id order |
| Slides.NewsSlideShape | modules/admin/models/Article.php:148-150 | a news slide is an unclassed `div` whose parts are a `news-title` `div` holding the formatted creation date and a `news-text` `div` holding the body |
| Slides.ModalButtonOptions | modules/admin/models/Article.php:166-171 | the details button opens the `#modalCard` modal and carries the article's id and title |
| Slides.ModalFooterShape | modules/admin/models/Article.php:166-172 | the `card-footer` `div` holds the button captioned "Подробнее" with `data-toggle` `modal`, `data-target` `#modalCard`, `data-id` the id and `data-title` the title |
| Slides.EquipmentCardShape | modules/admin/models/Article.php:163-174 | an equipment card is a `div` of class `card-md card-black` with `div` parts header, body, footer in that order; the header holds a `card-avatar` `div` with the image of the thumbnail path, the body the title, the footer the details button |
| Slides.BranchCardShape | modules/admin/models/Article.php:187-199 | a branch card is a `div` of class `"card-sm " + view` with `div` parts header (a `card-title` `div`, then a `card-avatar` `div`), body (the body truncated to 20 words) and footer (the details button) |

## Left out

- `ArticleCategory::getIdBySlug` is not part of this model; the category table is a map from slug to id, so each slug has at most one id.
- The database itself: fetching rows, connection errors and SQL text are not modelled; the table is a sequence held in memory.
- The order of rows with equal ids is left to the insertion sort; the database leaves it unspecified, so strict order is stated only for unique ids (the primary key).
- Negative or non-integer limits are not modelled; the limit is a natural number or null.
- `date('d.m.Y', …)` and `StringHelper::truncateWords` are parameters of the slide builders: their output format, the time zone and the word-splitting algorithm are not modelled.
- Html escaping and the rendered text of `Html::tag`, `Html::img` and `Html::button` (attribute order, the default `type="button"`, what `Html::img` does with a null path) are not modelled; fragments are trees.
- `tableName`, `behaviors` (the timestamp behaviour), `attributeLabels` and the relation getters are not modelled: they are configuration or one-line framework calls.
- The validators' error messages and their translation are not modelled; only the pass/fail outcome is.
- Values of the wrong type cannot be represented: each column is typed as a nullable string or integer, so the `string` rule on the body and the `integer` rule (`modules/admin/models/Article.php:61-62`) always pass in the model, and what they reject (an array, a non-numeric string in an integer column) is not modelled.
- Query.ResolveSlug: stands in for the category lookup by slug and carries no contract of its own; it is a map lookup giving null for an unknown slug.
- Query.UnknownSlugYieldsNothing: states an empty result only for tables whose rows all have a category, because with the unknown slug taken to resolve to null the source selects the rows whose category is null.

## Findings

| source | as written | input that shows it | evidently intended | confidence | as-written member | corrected member |
|---|---|---|---|---|---|---|
| modules/admin/models/Article.php:64 | the slug pattern `/^[0-9a-zA-Z_-]+$/` has no `D` modifier, so `$` also matches just before a final newline | the slug `"news\n"` | only letters, digits, `-` and `_`, the character class of the pattern; the rule's message names Latin letters, dash and underscore | not executed | Articles.TrailingNewlineRecordAccepted | Articles.ValidArticleIntendedMeans |

`Articles.SlugPatternAsWritten` models the pattern as written, and
`Articles.ValidArticle`, the model of the rules list, uses it;
`Articles.TrailingNewlineSlugAccepted` shows it accepting `"news\n"`.
`Articles.SlugToken` is the corrected test and `Articles.ValidArticleIntended`
the corrected rules; `Articles.SlugTokenIsPatternWithoutNewline` and
`Articles.ValidArticleIntendedMeans` relate the two.
