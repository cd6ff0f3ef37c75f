/**
  The `article` record and the validation rules declared for it.
  The rules are kept as data, one `Rule` per entry of the rules list, and
  evaluated the way Yii's validators evaluate them.
 */
module Articles {
  import opened Wrappers
  import opened Php

  /** One row of the `article` table; every column except the primary key may be NULL. */
  datatype Article = Article(
    id: int,
    slug: Option<string>,
    title: Option<string>,
    body: Option<string>,
    view: Option<string>,
    categoryId: Option<int>,
    thumbnailBaseUrl: Option<string>,
    thumbnailPath: Option<string>,
    authorId: Option<int>,
    updaterId: Option<int>,
    status: Option<int>,
    publishedAt: Option<int>,
    createdAt: Option<int>,
    updatedAt: Option<int>)

  datatype Field =
    | Slug | Title | Body | View | CategoryId | ThumbnailBaseUrl | ThumbnailPath
    | AuthorId | UpdaterId | Status | PublishedAt | CreatedAt | UpdatedAt

  /** The attribute `f` of `a`, as the validators see it. */
  function Get(a: Article, f: Field): Value {
    match f
    case Slug => OfString(a.slug)
    case Title => OfString(a.title)
    case Body => OfString(a.body)
    case View => OfString(a.view)
    case CategoryId => OfInt(a.categoryId)
    case ThumbnailBaseUrl => OfString(a.thumbnailBaseUrl)
    case ThumbnailPath => OfString(a.thumbnailPath)
    case AuthorId => OfInt(a.authorId)
    case UpdaterId => OfInt(a.updaterId)
    case Status => OfInt(a.status)
    case PublishedAt => OfInt(a.publishedAt)
    case CreatedAt => OfInt(a.createdAt)
    case UpdatedAt => OfInt(a.updatedAt)
  }

  /** The validator kinds the article rules use. */
  datatype Rule =
    | Required(fields: seq<Field>)
    | IsString(fields: seq<Field>)
    | IsInteger(fields: seq<Field>)
    | StringMax(fields: seq<Field>, max: nat)
    /** `match` with the pattern `/^[0-9a-zA-Z_-]+$/`. */
    | MatchSlugPattern(fields: seq<Field>)

  /** The rules of the article model, entry by entry. */
  const ArticleRules: seq<Rule> := [
    Required([Slug, Title, Body, CategoryId]),
    IsString([Body]),
    IsInteger([CategoryId, AuthorId, UpdaterId, Status, PublishedAt, CreatedAt, UpdatedAt]),
    StringMax([Slug, ThumbnailBaseUrl, ThumbnailPath], 1024),
    MatchSlugPattern([Slug]),
    StringMax([Title], 512),
    StringMax([View], 255)
  ]

  /** The characters PHP's `trim` removes by default. */
  predicate TrimmedChar(c: char) {
    c == ' ' || c == '\t' || c == '\n' || c == '\r' || c == '\0' || c == '\U{0B}'
  }

  /** A string that `trim` reduces to "". */
  predicate Blank(s: string) {
    forall k | 0 <= k < |s| :: TrimmedChar(s[k])
  }

  /** The empty test the validators use to skip a value: NULL or "". */
  predicate IsEmpty(v: Value) {
    v == Null || v == Str("")
  }

  /** A character of the class `[0-9a-zA-Z_-]`. */
  predicate SlugChar(c: char) {
    ('0' <= c <= '9') || ('a' <= c <= 'z') || ('A' <= c <= 'Z') || c == '_' || c == '-'
  }

  /** A whole string made of one or more characters of `[0-9a-zA-Z_-]`. */
  predicate SlugToken(s: string) {
    |s| > 0 && forall k | 0 <= k < |s| :: SlugChar(s[k])
  }

  /**
    What `preg_match('/^[0-9a-zA-Z_-]+$/', s)` accepts: without the `D`
    modifier, `$` also matches just before a final newline.
   */
  predicate SlugPatternAsWritten(s: string) {
    SlugToken(s) || (|s| > 1 && s[|s| - 1] == '\n' && SlugToken(s[..|s| - 1]))
  }

  /** Whether one validator accepts one attribute value. */
  predicate Accepts(r: Rule, v: Value) {
    match r
    // the required validator trims strings before its empty test
    case Required(_) => v != Null && !(v.Str? && Blank(v.s))
    case IsString(_) => IsEmpty(v) || v.Str?
    case IsInteger(_) => IsEmpty(v) || v.Int?
    case StringMax(_, max) => IsEmpty(v) || (v.Str? && |v.s| <= max)
    case MatchSlugPattern(_) => IsEmpty(v) || (v.Str? && SlugPatternAsWritten(v.s))
  }

  /** Every attribute a rule names passes that rule. */
  predicate Passes(a: Article, r: Rule) {
    forall f | f in r.fields :: Accepts(r, Get(a, f))
  }

  /** The record passes every rule of the article model, the slug pattern as written. */
  predicate ValidArticle(a: Article) {
    forall r | r in ArticleRules :: Passes(a, r)
  }

  /**
    The rules as evidently intended: the slug is a token of `[0-9a-zA-Z_-]`
    with nothing after it, not even a final newline.
   */
  predicate ValidArticleIntended(a: Article) {
    ValidArticle(a) && a.slug.Some? && SlugToken(a.slug.value)
  }

  /** A nullable string column that the required validator accepts. */
  predicate Present(o: Option<string>) {
    o.Some? && !Blank(o.value)
  }

  /** A nullable string column that is NULL, or at most `max` characters long. */
  predicate AtMost(o: Option<string>, max: nat) {
    o.None? || |o.value| <= max
  }

  /**
    The rules list, read field by field: slug, title, body and category
    present; the slug accepted by the pattern as written (a token of
    `[0-9a-zA-Z_-]`, optionally followed by one newline); slug and both thumbnail
    columns at most 1024 characters, title at most 512, view at most 255.
   */
  lemma ValidArticleMeans(a: Article)
    ensures ValidArticle(a) <==>
      && Present(a.slug) && Present(a.title) && Present(a.body) && a.categoryId.Some?
      && SlugPatternAsWritten(a.slug.value)
      && AtMost(a.slug, 1024) && AtMost(a.thumbnailBaseUrl, 1024) && AtMost(a.thumbnailPath, 1024)
      && AtMost(a.title, 512)
      && AtMost(a.view, 255)
  {
    RequiredRule(a);
    TypeRules(a);
    LengthRules(a);
    PatternRule(a);
    var rs := ArticleRules;
    assert ValidArticle(a) <==> forall k | 0 <= k < |rs| :: Passes(a, rs[k]);
  }

  lemma RequiredRule(a: Article)
    ensures Passes(a, ArticleRules[0]) <==>
      Present(a.slug) && Present(a.title) && Present(a.body) && a.categoryId.Some?
  {
    var r := ArticleRules[0];
    assert Slug in r.fields && Title in r.fields && Body in r.fields && CategoryId in r.fields;
  }

  lemma TypeRules(a: Article)
    ensures Passes(a, ArticleRules[1]) && Passes(a, ArticleRules[2])
  {
    var r1, r2 := ArticleRules[1], ArticleRules[2];
    forall f | f in r1.fields ensures Accepts(r1, Get(a, f)) {
      assert f == Body;
    }
    forall f | f in r2.fields ensures Accepts(r2, Get(a, f)) {
      assert Get(a, f).Null? || Get(a, f).Int? by {
        assert f in {CategoryId, AuthorId, UpdaterId, Status, PublishedAt, CreatedAt, UpdatedAt};
      }
    }
  }

  lemma LengthRules(a: Article)
    ensures Passes(a, ArticleRules[3]) <==>
      AtMost(a.slug, 1024) && AtMost(a.thumbnailBaseUrl, 1024) && AtMost(a.thumbnailPath, 1024)
    ensures Passes(a, ArticleRules[5]) <==> AtMost(a.title, 512)
    ensures Passes(a, ArticleRules[6]) <==> AtMost(a.view, 255)
  {
    var r3, r5, r6 := ArticleRules[3], ArticleRules[5], ArticleRules[6];
    assert Slug in r3.fields && ThumbnailBaseUrl in r3.fields && ThumbnailPath in r3.fields;
    assert Title in r5.fields;
    assert View in r6.fields;
  }

  lemma PatternRule(a: Article)
    ensures Present(a.slug) ==> (Passes(a, ArticleRules[4]) <==> SlugPatternAsWritten(a.slug.value))
  {
    assert Slug in ArticleRules[4].fields;
  }

  /** Every valid record names a category, so the filter `category_id IS NULL` matches none. */
  lemma ValidArticleHasCategory(a: Article)
    requires ValidArticle(a)
    ensures a.categoryId.Some?
  {
    assert Passes(a, ArticleRules[0]);
    assert CategoryId in ArticleRules[0].fields;
  }

  /** The pattern as written lets a slug with a trailing newline through. */
  lemma TrailingNewlineSlugAccepted()
    ensures SlugPatternAsWritten("news\n") && !SlugToken("news\n")
  {
    assert "news\n"[..4] == "news";
    assert !SlugChar("news\n"[4]);
  }

  /**
    The pattern as written and the intended token differ only on strings
    ending in a newline; the intended token contains no newline at all.
   */
  lemma SlugTokenIsPatternWithoutNewline(s: string)
    ensures SlugToken(s) ==> SlugPatternAsWritten(s) && '\n' !in s
    ensures SlugPatternAsWritten(s) && !SlugToken(s) ==> s[|s| - 1] == '\n' && SlugToken(s[..|s| - 1])
  {
    if SlugToken(s) {
      forall k | 0 <= k < |s| ensures s[k] != '\n' {
        assert SlugChar(s[k]);
      }
    }
  }

  /**
    The intended rules are the rules as written on every record whose slug
    holds no newline; they differ only on a slug ending in one.
   */
  lemma ValidArticleIntendedMeans(a: Article)
    ensures ValidArticleIntended(a) <==> ValidArticle(a) && a.slug.Some? && '\n' !in a.slug.value
    ensures ValidArticle(a) && !ValidArticleIntended(a) ==>
      && a.slug.Some? && |a.slug.value| > 1
      && a.slug.value[|a.slug.value| - 1] == '\n' && SlugToken(a.slug.value[..|a.slug.value| - 1])
  {
    ValidArticleMeans(a);
    if a.slug.Some? {
      SlugTokenIsPatternWithoutNewline(a.slug.value);
    }
  }

  /** A record the rules as written accept and the intended rules reject. */
  lemma TrailingNewlineRecordAccepted()
    ensures var a := Article(1, Some("news\n"), Some("t"), Some("b"), None, Some(3),
                             None, None, None, None, None, None, None, None);
      ValidArticle(a) && !ValidArticleIntended(a)
  {
    var a := Article(1, Some("news\n"), Some("t"), Some("b"), None, Some(3),
                     None, None, None, None, None, None, None, None);
    TrailingNewlineSlugAccepted();
    assert !Blank("news\n") by { assert !TrimmedChar("news\n"[0]); }
    assert !Blank("t") by { assert !TrimmedChar("t"[0]); }
    assert !Blank("b") by { assert !TrimmedChar("b"[0]); }
    ValidArticleMeans(a);
  }
}
