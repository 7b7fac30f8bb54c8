/** What the filters of an export select, in terms of the rows: each filter alone, and all together. */
module ExportFilters {
  import opened Model
  import opened Export

  function Rows(entity: Entity, t: Tables): set<Id> {
    match entity
    case Users => t.users.Keys
    case Articles => t.articles.Keys
    case Comments => t.comments.Keys
  }

  // ---- Each filter alone ----

  /** `active` selects the users with that flag, and every article and comment. */
  lemma ActiveSelects(t: Tables, active: bool)
    ensures var f := NO_FILTERS.(active := Some(active));
            && EligibleIds(Users, f, t) == (set x | x in t.users && t.users[x].active == active)
            && EligibleIds(Articles, f, t) == Rows(Articles, t) && EligibleIds(Comments, f, t) == Rows(Comments, t)
  {
  }

  /** `role` selects the users with that role, and every article and comment. */
  lemma RoleSelects(t: Tables, role: string)
    requires role != ""
    ensures var f := NO_FILTERS.(role := Some(role));
            && EligibleIds(Users, f, t) == (set x | x in t.users && t.users[x].role == role)
            && EligibleIds(Articles, f, t) == Rows(Articles, t) && EligibleIds(Comments, f, t) == Rows(Comments, t)
  {
  }

  /** `status` selects the articles with that status, and every user and comment. */
  lemma StatusSelects(t: Tables, status: string)
    requires status != ""
    ensures var f := NO_FILTERS.(status := Some(status));
            && EligibleIds(Articles, f, t) == (set x | x in t.articles && t.articles[x].status == status)
            && EligibleIds(Users, f, t) == Rows(Users, t) && EligibleIds(Comments, f, t) == Rows(Comments, t)
  {
  }

  /** `author_id` selects the articles of that author, and every user and comment. */
  lemma AuthorSelects(t: Tables, author: Id)
    requires author != ""
    ensures var f := NO_FILTERS.(authorId := Some(author));
            && EligibleIds(Articles, f, t) == (set x | x in t.articles && t.articles[x].authorId == author)
            && EligibleIds(Users, f, t) == Rows(Users, t) && EligibleIds(Comments, f, t) == Rows(Comments, t)
  {
  }

  /** `article_id` selects the comments on that article, and every user and article. */
  lemma ArticleSelects(t: Tables, article: Id)
    requires article != ""
    ensures var f := NO_FILTERS.(articleId := Some(article));
            && EligibleIds(Comments, f, t) == (set x | x in t.comments && t.comments[x].articleId == article)
            && EligibleIds(Users, f, t) == Rows(Users, t) && EligibleIds(Articles, f, t) == Rows(Articles, t)
  {
  }

  /** `user_id` selects the comments by that user, and every user and article. */
  lemma UserSelects(t: Tables, user: Id)
    requires user != ""
    ensures var f := NO_FILTERS.(userId := Some(user));
            && EligibleIds(Comments, f, t) == (set x | x in t.comments && t.comments[x].userId == user)
            && EligibleIds(Users, f, t) == Rows(Users, t) && EligibleIds(Articles, f, t) == Rows(Articles, t)
  {
  }

  /** `published_after` selects the articles published later than that moment, not at it, and no
      unpublished one. */
  lemma PublishedAfterSelects(t: Tables, bound: Time)
    ensures var f := NO_FILTERS.(publishedAfter := Some(bound));
            && EligibleIds(Articles, f, t) ==
               (set x | x in t.articles && t.articles[x].publishedAt.Some? && t.articles[x].publishedAt.value > bound)
            && EligibleIds(Users, f, t) == Rows(Users, t) && EligibleIds(Comments, f, t) == Rows(Comments, t)
  {
  }

  /** `published_before` selects the articles published earlier than that moment, not at it, and no
      unpublished one. */
  lemma PublishedBeforeSelects(t: Tables, bound: Time)
    ensures var f := NO_FILTERS.(publishedBefore := Some(bound));
            && EligibleIds(Articles, f, t) ==
               (set x | x in t.articles && t.articles[x].publishedAt.Some? && t.articles[x].publishedAt.value < bound)
            && EligibleIds(Users, f, t) == Rows(Users, t) && EligibleIds(Comments, f, t) == Rows(Comments, t)
  {
  }

  /** An empty text filter selects everything. */
  lemma EmptyTextSelectsAll(entity: Entity, t: Tables)
    ensures EligibleIds(entity, NO_FILTERS.(role := Some("")), t) == Rows(entity, t)
    ensures EligibleIds(entity, NO_FILTERS.(status := Some("")), t) == Rows(entity, t)
    ensures EligibleIds(entity, NO_FILTERS.(authorId := Some("")), t) == Rows(entity, t)
    ensures EligibleIds(entity, NO_FILTERS.(articleId := Some("")), t) == Rows(entity, t)
    ensures EligibleIds(entity, NO_FILTERS.(userId := Some("")), t) == Rows(entity, t)
  {
  }

  // ---- All together ----

  // The filters of f, one at a time.
  function OneByOne(f: Filters): seq<Filters> {
    [NO_FILTERS.(active := f.active), NO_FILTERS.(role := f.role), NO_FILTERS.(status := f.status),
     NO_FILTERS.(authorId := f.authorId), NO_FILTERS.(articleId := f.articleId), NO_FILTERS.(userId := f.userId),
     NO_FILTERS.(publishedAfter := f.publishedAfter), NO_FILTERS.(publishedBefore := f.publishedBefore)]
  }

  /** Several filters select the rows that each of them selects alone. */
  lemma {:induction false} FiltersIntersect(entity: Entity, t: Tables, f: Filters, x: Id)
    ensures x in EligibleIds(entity, f, t) <==>
            x in Rows(entity, t) && forall one :: one in OneByOne(f) ==> x in EligibleIds(entity, one, t)
  {
    if x in Rows(entity, t) {
      if forall one :: one in OneByOne(f) ==> x in EligibleIds(entity, one, t) {
        assert OneByOne(f)[0] in OneByOne(f) && OneByOne(f)[1] in OneByOne(f) && OneByOne(f)[2] in OneByOne(f);
        assert OneByOne(f)[3] in OneByOne(f) && OneByOne(f)[4] in OneByOne(f) && OneByOne(f)[5] in OneByOne(f);
        assert OneByOne(f)[6] in OneByOne(f) && OneByOne(f)[7] in OneByOne(f);
      }
    }
  }
}
