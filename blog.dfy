/**
 * Blog posts and tags (blog/models.py): the long-post test and what saving a
 * post or a tag fills in.
 *
 * Django's `slugify` is the parameter `slugify` and `timezone.now()` the
 * parameter `now`; timestamps are integers.
 */
module Blog {
  import opened Wrappers
  import opened Text

  /** A post longer than this many words is long. */
  const LONG_POST_WORDS: nat := 200

  /** An excerpt is made from at most this many words. */
  const EXCERPT_WORDS: nat := 100

  const ELLIPSIS: string := "..."

  /** `is_long_post`, on the post's content. */
  predicate IsLong(content: string)
  {
    |Words(content)| > LONG_POST_WORDS
  }

  /** The excerpt generated for non-empty content: the content itself when it
      has fewer than 100 words, otherwise its first 100 words joined by single
      spaces and followed by "...". */
  function ExcerptOf(content: string): (excerpt: string)
    ensures |Words(content)| < EXCERPT_WORDS ==> excerpt == content
    ensures |Words(content)| >= EXCERPT_WORDS ==>
              |excerpt| >= |ELLIPSIS| && excerpt[|excerpt| - |ELLIPSIS|..] == ELLIPSIS &&
              Words(excerpt[..|excerpt| - |ELLIPSIS|]) == Words(content)[..EXCERPT_WORDS]
  {
    var words := Words(content);
    if |words| >= EXCERPT_WORDS then
      var kept := words[..EXCERPT_WORDS];
      WordsOfJoin(kept);
      var joined := Join(" ", kept);
      assert (joined + ELLIPSIS)[..|joined|] == joined;
      joined + ELLIPSIS
    else content
  }

  /** A long post always gets a shortened excerpt. */
  lemma {:induction false} LongPostExcerptShortened(content: string)
    requires IsLong(content)
    ensures var e := ExcerptOf(content);
            e[|e| - |ELLIPSIS|..] == ELLIPSIS && |Words(e[..|e| - |ELLIPSIS|])| == EXCERPT_WORDS
  {
  }

  /** The excerpt of non-empty content is never empty. */
  lemma {:induction false} ExcerptNonEmpty(content: string)
    requires content != ""
    ensures ExcerptOf(content) != ""
  {
  }

  // ---------------------------------------------------------------------------
  // What save fills in
  // ---------------------------------------------------------------------------

  /** The slug after saving: made from `source` only when there is none. */
  function SlugAfterSave(slug: string, source: string, slugify: string -> string): string
  {
    if slug == "" then slugify(source) else slug
  }

  /** The publication time after saving: `now` when the record is published
      and has none yet; otherwise unchanged. */
  function PublishedAfterSave(publishedAt: Option<int>, isPublished: bool, now: int): Option<int>
  {
    if isPublished && publishedAt.None? then Some(now) else publishedAt
  }

  /** The excerpt after saving: generated only when there is none and the
      content is not empty. */
  function ExcerptAfterSave(excerpt: string, content: string): string
  {
    if excerpt == "" && content != "" then ExcerptOf(content) else excerpt
  }

  /** Saving again changes nothing: each rule, applied to its own result, gives
      that result back; a publication time, once set, is never replaced. */
  lemma {:induction false} SaveRulesSettle(slug: string, title: string, slugify: string -> string,
                        publishedAt: Option<int>, isPublished: bool, now: int, later: int,
                        excerpt: string, content: string)
    ensures SlugAfterSave(SlugAfterSave(slug, title, slugify), title, slugify) == SlugAfterSave(slug, title, slugify)
    ensures PublishedAfterSave(PublishedAfterSave(publishedAt, isPublished, now), isPublished, later)
            == PublishedAfterSave(publishedAt, isPublished, now)
    ensures ExcerptAfterSave(ExcerptAfterSave(excerpt, content), content) == ExcerptAfterSave(excerpt, content)
  {
    if excerpt == "" && content != "" {
      ExcerptNonEmpty(content);
    }
  }

  // ---------------------------------------------------------------------------
  // The records
  // ---------------------------------------------------------------------------

  class Tag {
    var name: string
    var slug: string

    constructor(name: string, slug: string)
      ensures this.name == name && this.slug == slug
    {
      this.name := name;
      this.slug := slug;
    }

    /** `Tag.save`: a slug is made from the name only when there is none. */
    method Save(slugify: string -> string)
      modifies this
      ensures slug == SlugAfterSave(old(slug), name, slugify)
      ensures name == old(name)
    {
      if slug == "" {
        slug := slugify(name);
      }
    }
  }

  class Post {
    var title: string
    var slug: string
    var content: string
    var excerpt: string
    var isPublished: bool
    var publishedAt: Option<int>

    constructor(title: string, slug: string, content: string, excerpt: string, isPublished: bool, publishedAt: Option<int>)
      ensures this.title == title && this.slug == slug && this.content == content && this.excerpt == excerpt
      ensures this.isPublished == isPublished && this.publishedAt == publishedAt
    {
      this.title := title;
      this.slug := slug;
      this.content := content;
      this.excerpt := excerpt;
      this.isPublished := isPublished;
      this.publishedAt := publishedAt;
    }

    /** `is_long_post`. */
    predicate IsLongPost()
      reads this
    {
      IsLong(content)
    }

    /** `Post.save`: fills in the slug, the publication time and the excerpt,
        each only when it is missing; nothing else changes. */
    method Save(slugify: string -> string, now: int)
      modifies this
      ensures slug == SlugAfterSave(old(slug), title, slugify)
      ensures publishedAt == PublishedAfterSave(old(publishedAt), isPublished, now)
      ensures excerpt == ExcerptAfterSave(old(excerpt), content)
      ensures title == old(title) && content == old(content) && isPublished == old(isPublished)
    {
      if slug == "" {
        slug := slugify(title);
      }
      if isPublished && publishedAt.None? {
        publishedAt := Some(now);
      }
      if excerpt == "" && content != "" {
        var words := Words(content);
        if |words| >= EXCERPT_WORDS {
          excerpt := Join(" ", words[..EXCERPT_WORDS]) + ELLIPSIS;
        } else {
          excerpt := content;
        }
      }
    }
  }
}
