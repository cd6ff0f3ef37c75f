/**
  The three slide builders: each fetches one category with
  `getByCategory` and turns every article into one markup fragment.
  `date('d.m.Y', …)` and `StringHelper::truncateWords` are parameters, so
  nothing here depends on how they format or cut their input.
 */
module Slides {
  import opened Wrappers
  import opened Php
  import opened Html
  import opened Articles
  import opened Query

  /** `date('d.m.Y', $created_at)` under whatever time zone the application configures. */
  type DateFormatter = Option<int> -> string

  /** `StringHelper::truncateWords($text, $count)`. */
  type WordTruncator = (Option<string>, nat) -> string

  /** The caption of the footer button. */
  const MoreCaption: string := "Подробнее"

  /** `<div class="cls">content…</div>`. */
  function Div(cls: string, children: seq<Node>): Node {
    Element("div", [("class", Str(cls))], children)
  }

  /** The value of attribute `name` on the button inside a card's footer. */
  function FooterButtonAttr(card: Node, name: string): Option<Value> {
    match ContentOf(card, "card-footer")
    case Some(c) => if |c| == 1 && c[0].Button? then Attr(c[0].options, name) else None
    case None => None
  }

  /** The caption of the button inside a card's footer. */
  function FooterButtonCaption(card: Node): Option<string> {
    match ContentOf(card, "card-footer")
    case Some(c) => if |c| == 1 && c[0].Button? then Some(c[0].caption) else None
    case None => None
  }

  /** The child classes of the part of `card` with class `cls`. */
  function PartClasses(card: Node, cls: string): seq<Option<Value>> {
    match Part(card, cls)
    case Some(p) => ChildClasses(p)
    case None => []
  }

  /** The content of the piece of class `inner` within the part of class `outer`. */
  function NestedContent(card: Node, outer: string, inner: string): Option<seq<Node>> {
    match Part(card, outer)
    case Some(p) => ContentOf(p, inner)
    case None => None
  }

  /**
    The button that opens the shared modal and tells it which article to
    show: the same in equipment and branch cards.
   */
  function ModalFooter(a: Article): Node {
    Div("card-footer", [ModalButton(a)])
  }

  function ModalButton(a: Article): Node {
    Button(MoreCaption, [
      ("data-toggle", Str("modal")),
      ("data-target", Str("#modalCard")),
      ("data-id", Int(a.id)),
      ("data-title", OfString(a.title))])
  }

  /** The image of the article inside a `card-avatar` div. */
  function Avatar(a: Article): Node {
    Div("card-avatar", [Image(OfString(a.thumbnailPath))])
  }

  /**
    One news slide: an unclassed div holding the formatted creation date in
    a `news-title` div, then the body, unchanged, in a `news-text` div.
   */
  function NewsSlide(a: Article, date: DateFormatter): Node
  {
    var title := Div("news-title", [Text(Str(date(a.createdAt)))]);
    var text := Div("news-text", [Text(OfString(a.body))]);
    Element("div", [], [title, text])
  }

  /**
    One equipment card, classed `card-md card-black`: a header holding only
    the avatar, a body holding the title verbatim, and the modal footer.
   */
  function EquipmentCard(a: Article): Node
  {
    var header := Div("card-header", [Avatar(a)]);
    var body := Div("card-body", [Text(OfString(a.title))]);
    Div("card-md card-black", [header, body, ModalFooter(a)])
  }

  /**
    One branch card, classed `card-sm ` followed by the `view` column
    verbatim: a header holding the title div before the avatar, a body
    holding the first 20 words of the text, and the modal footer.
   */
  function BranchCard(a: Article, truncate: WordTruncator): Node
  {
    var title := Div("card-title", [Text(OfString(a.title))]);
    var header := Div("card-header", [title, Avatar(a)]);
    var body := Div("card-body", [Text(Str(truncate(a.body, 20)))]);
    Div("card-sm " + AsString(a.view), [header, body, ModalFooter(a)])
  }

  /** The articles `slideNews` renders: the category `news`, limit 5. */
  function NewsItems(table: seq<Article>, categories: Categories): seq<Article> {
    ByCategory(table, ResolveSlug(categories, "news"), Some(5))
  }

  /** The articles `slideEquipment` renders: the category `equipment`, no limit. */
  function EquipmentItems(table: seq<Article>, categories: Categories): seq<Article> {
    ByCategory(table, ResolveSlug(categories, "equipment"), None)
  }

  /** The articles `slideBranches` renders: the category `branches`, no limit. */
  function BranchItems(table: seq<Article>, categories: Categories): seq<Article> {
    ByCategory(table, ResolveSlug(categories, "branches"), None)
  }

  /** `Article::slideNews()`: one news slide per fetched article, in fetch order. */
  method SlideNews(table: seq<Article>, categories: Categories, date: DateFormatter)
    returns (slides: seq<Node>)
    ensures |slides| == |NewsItems(table, categories)|
    ensures forall k | 0 <= k < |slides| :: slides[k] == NewsSlide(NewsItems(table, categories)[k], date)
  {
    var items := GetByCategory(table, categories, "news", Some(5));
    slides := [];
    for i := 0 to |items|
      invariant |slides| == i
      invariant forall k | 0 <= k < i :: slides[k] == NewsSlide(items[k], date)
    {
      var slide := NewsSlide(items[i], date);
      slides := slides + [slide];
    }
    assert items == NewsItems(table, categories);
  }

  /** `Article::slideEquipment()`: one equipment card per fetched article, in fetch order. */
  method SlideEquipment(table: seq<Article>, categories: Categories)
    returns (slides: seq<Node>)
    ensures |slides| == |EquipmentItems(table, categories)|
    ensures forall k | 0 <= k < |slides| :: slides[k] == EquipmentCard(EquipmentItems(table, categories)[k])
  {
    var items := GetByCategory(table, categories, "equipment", None);
    slides := [];
    for i := 0 to |items|
      invariant |slides| == i
      invariant forall k | 0 <= k < i :: slides[k] == EquipmentCard(items[k])
    {
      var slide := EquipmentCard(items[i]);
      slides := slides + [slide];
    }
    assert items == EquipmentItems(table, categories);
  }

  /** `Article::slideBranches()`: one branch card per fetched article, in fetch order. */
  method SlideBranches(table: seq<Article>, categories: Categories, truncate: WordTruncator)
    returns (slides: seq<Node>)
    ensures |slides| == |BranchItems(table, categories)|
    ensures forall k | 0 <= k < |slides| :: slides[k] == BranchCard(BranchItems(table, categories)[k], truncate)
  {
    var items := GetByCategory(table, categories, "branches", None);
    slides := [];
    for i := 0 to |items|
      invariant |slides| == i
      invariant forall k | 0 <= k < i :: slides[k] == BranchCard(items[k], truncate)
    {
      var slide := BranchCard(items[i], truncate);
      slides := slides + [slide];
    }
    assert items == BranchItems(table, categories);
  }

  /**
    What a news slide shows: an unclassed div whose `news-title` child holds
    the formatted creation date and whose `news-text` child, after it, holds
    the body unchanged.
   */
  lemma NewsSlideShape(a: Article, date: DateFormatter)
    ensures NewsSlide(a, date).Element? && NewsSlide(a, date).tag == "div"
    ensures ClassOf(NewsSlide(a, date)) == None
    ensures ChildClasses(NewsSlide(a, date)) == [Some(Str("news-title")), Some(Str("news-text"))]
    ensures ContentOf(NewsSlide(a, date), "news-title") == Some([Text(Str(date(a.createdAt)))])
    ensures ContentOf(NewsSlide(a, date), "news-text") == Some([Text(OfString(a.body))])
  {
    var n := NewsSlide(a, date);
    var title, text := n.children[0], n.children[1];
    assert |"news-title"| != |"news-text"|;
    ClassesOfTwo(title, text);
    FirstWithClassTwo(title, text, "news-title");
    FirstWithClassTwo(title, text, "news-text");
  }

  /** The options of the footer button, looked up by name. */
  lemma ModalButtonOptions(a: Article)
    ensures Attr(ModalButton(a).options, "data-toggle") == Some(Str("modal"))
    ensures Attr(ModalButton(a).options, "data-target") == Some(Str("#modalCard"))
    ensures Attr(ModalButton(a).options, "data-id") == Some(Int(a.id))
    ensures Attr(ModalButton(a).options, "data-title") == Some(OfString(a.title))
  {
    var opts := ModalButton(a).options;
    assert "data-toggle"[6] != "data-target"[6];
    assert |"data-id"| != |"data-toggle"| && |"data-id"| != |"data-target"|;
    assert "data-title"[6] != "data-toggle"[6] && "data-title"[6] != "data-target"[6];
    assert "data-title"[6] != "data-id"[6];
    AttrOfFour(opts[0], opts[1], opts[2], opts[3], "data-toggle");
    AttrOfFour(opts[0], opts[1], opts[2], opts[3], "data-target");
    AttrOfFour(opts[0], opts[1], opts[2], opts[3], "data-id");
    AttrOfFour(opts[0], opts[1], opts[2], opts[3], "data-title");
  }

  /** The footer button that both card kinds share. */
  lemma ModalFooterShape(a: Article, card: Node)
    requires ContentOf(card, "card-footer") == Some([ModalButton(a)])
    ensures FooterButtonCaption(card) == Some(MoreCaption)
    ensures FooterButtonAttr(card, "data-toggle") == Some(Str("modal"))
    ensures FooterButtonAttr(card, "data-target") == Some(Str("#modalCard"))
    ensures FooterButtonAttr(card, "data-id") == Some(Int(a.id))
    ensures FooterButtonAttr(card, "data-title") == Some(OfString(a.title))
  {
    ModalButtonOptions(a);
  }

  /**
    What an equipment card shows: class `card-md card-black`; header, body
    and footer in that order; a header holding only the avatar; the title
    verbatim in the body; and a footer button carrying the modal trigger,
    the article's id and its title.
   */
  lemma EquipmentCardShape(a: Article)
    ensures EquipmentCard(a).Element? && EquipmentCard(a).tag == "div"
    ensures ClassOf(EquipmentCard(a)) == Some(Str("card-md card-black"))
    ensures ChildClasses(EquipmentCard(a)) == [Some(Str("card-header")), Some(Str("card-body")), Some(Str("card-footer"))]
    ensures PartClasses(EquipmentCard(a), "card-header") == [Some(Str("card-avatar"))]
    ensures NestedContent(EquipmentCard(a), "card-header", "card-avatar") == Some([Image(OfString(a.thumbnailPath))])
    ensures ContentOf(EquipmentCard(a), "card-body") == Some([Text(OfString(a.title))])
    ensures FooterButtonCaption(EquipmentCard(a)) == Some(MoreCaption)
    ensures FooterButtonAttr(EquipmentCard(a), "data-toggle") == Some(Str("modal"))
    ensures FooterButtonAttr(EquipmentCard(a), "data-target") == Some(Str("#modalCard"))
    ensures FooterButtonAttr(EquipmentCard(a), "data-id") == Some(Int(a.id))
    ensures FooterButtonAttr(EquipmentCard(a), "data-title") == Some(OfString(a.title))
  {
    var n := EquipmentCard(a);
    var header, body, footer := n.children[0], n.children[1], n.children[2];
    CardClassesDiffer();
    ClassesOfThree(header, body, footer);
    FirstWithClassThree(header, body, footer, "card-header");
    FirstWithClassThree(header, body, footer, "card-body");
    FirstWithClassThree(header, body, footer, "card-footer");
    ClassesOfOne(header.children[0]);
    FirstWithClassOne(header.children[0], "card-avatar");
    ModalFooterShape(a, n);
  }

  /**
    What a branch card shows: class `card-sm ` followed by the `view` column
    verbatim; header, body and footer in that order; a header holding the
    title div before the avatar; the first 20 words of the body in the body;
    and the same footer button as an equipment card.
   */
  lemma BranchCardShape(a: Article, truncate: WordTruncator)
    ensures BranchCard(a, truncate).Element? && BranchCard(a, truncate).tag == "div"
    ensures ClassOf(BranchCard(a, truncate)) == Some(Str("card-sm " + AsString(a.view)))
    ensures ChildClasses(BranchCard(a, truncate)) == [Some(Str("card-header")), Some(Str("card-body")), Some(Str("card-footer"))]
    ensures PartClasses(BranchCard(a, truncate), "card-header") == [Some(Str("card-title")), Some(Str("card-avatar"))]
    ensures NestedContent(BranchCard(a, truncate), "card-header", "card-title") == Some([Text(OfString(a.title))])
    ensures NestedContent(BranchCard(a, truncate), "card-header", "card-avatar") == Some([Image(OfString(a.thumbnailPath))])
    ensures ContentOf(BranchCard(a, truncate), "card-body") == Some([Text(Str(truncate(a.body, 20)))])
    ensures FooterButtonCaption(BranchCard(a, truncate)) == Some(MoreCaption)
    ensures FooterButtonAttr(BranchCard(a, truncate), "data-toggle") == Some(Str("modal"))
    ensures FooterButtonAttr(BranchCard(a, truncate), "data-target") == Some(Str("#modalCard"))
    ensures FooterButtonAttr(BranchCard(a, truncate), "data-id") == Some(Int(a.id))
    ensures FooterButtonAttr(BranchCard(a, truncate), "data-title") == Some(OfString(a.title))
  {
    var n := BranchCard(a, truncate);
    var header, body, footer := n.children[0], n.children[1], n.children[2];
    CardClassesDiffer();
    ClassesOfThree(header, body, footer);
    FirstWithClassThree(header, body, footer, "card-header");
    FirstWithClassThree(header, body, footer, "card-body");
    FirstWithClassThree(header, body, footer, "card-footer");
    var title, avatar := header.children[0], header.children[1];
    ClassesOfTwo(title, avatar);
    FirstWithClassTwo(title, avatar, "card-title");
    FirstWithClassTwo(title, avatar, "card-avatar");
    ModalFooterShape(a, n);
  }

  lemma CardClassesDiffer()
    ensures "card-header" != "card-body" && "card-header" != "card-footer" && "card-body" != "card-footer"
    ensures "card-title" != "card-avatar"
  {
    assert |"card-header"| != |"card-body"| && |"card-body"| != |"card-footer"|;
    assert "card-header"[5] != "card-footer"[5];
    assert |"card-title"| != |"card-avatar"|;
  }

  /**
    The news slides show the news articles with the largest ids, newest
    first: at most five of them, and every news article left out has an id
    no larger than every one shown.
   */
  lemma NewsItemsAreLatestFive(table: seq<Article>, categories: Categories)
    ensures var c := ResolveSlug(categories, "news");
      var n := |Matching(table, c)|;
      |NewsItems(table, categories)| == if n < 5 then n else 5
    ensures Descending(NewsItems(table, categories))
    ensures DistinctIds(table) ==> StrictlyDescending(NewsItems(table, categories))
    ensures var c := ResolveSlug(categories, "news");
      forall a, b | a in NewsItems(table, categories) && b in table && b.categoryId == c
                    && b !in NewsItems(table, categories) :: a.id >= b.id
    ensures forall a | a in NewsItems(table, categories) ::
      a in table && a.categoryId == ResolveSlug(categories, "news")
  {
    var c := ResolveSlug(categories, "news");
    ByCategoryLimited(table, c, Some(5));
    ByCategoryOrdered(table, c, Some(5));
    ByCategoryMembers(table, c, Some(5));
  }

  /** The equipment and branch cards cover every article of their category exactly as often as it is stored. */
  lemma UnlimitedSlidesCoverCategory(table: seq<Article>, categories: Categories)
    ensures multiset(EquipmentItems(table, categories))
         == multiset(Matching(table, ResolveSlug(categories, "equipment")))
    ensures multiset(BranchItems(table, categories))
         == multiset(Matching(table, ResolveSlug(categories, "branches")))
    ensures Descending(EquipmentItems(table, categories)) && Descending(BranchItems(table, categories))
  {
    ByCategoryUnlimited(table, ResolveSlug(categories, "equipment"), None);
    ByCategoryUnlimited(table, ResolveSlug(categories, "branches"), None);
    ByCategoryOrdered(table, ResolveSlug(categories, "equipment"), None);
    ByCategoryOrdered(table, ResolveSlug(categories, "branches"), None);
  }
}
