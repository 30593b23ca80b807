/**
 * The Tool record (tools/models.py): its unique slug, the title found in its
 * HTML, and whether it changed since it was last exported.
 *
 * Django's `slugify` is the parameter `slugify`; the slugs already stored are
 * the finite set `taken`; timestamps are integers ordered as time is.
 */
module Tools {
  import opened Wrappers
  import opened Text

  // ---------------------------------------------------------------------------
  // generate_unique_slug
  // ---------------------------------------------------------------------------

  /** The k-th slug tried: the base itself, then `base-1`, `base-2`, ... */
  function Candidate(base: string, k: nat): string
  {
    if k == 0 then base else base + "-" + NatToString(k)
  }

  /** Different attempts try different slugs. */
  lemma {:induction false} CandidateInjective(base: string, j: nat, k: nat)
    ensures j != k ==> Candidate(base, j) != Candidate(base, k)
  {
    if j > 0 && k > 0 && Candidate(base, j) == Candidate(base, k) {
      var cj, ck := Candidate(base, j), Candidate(base, k);
      assert cj[|base| + 1..] == NatToString(j);
      assert ck[|base| + 1..] == NatToString(k);
      NatToStringInjective(j, k);
    }
  }

  /** `slug` is the first free attempt: free itself, every earlier one taken. */
  ghost predicate FirstFree(base: string, taken: set<string>, slug: string)
  {
    exists n: nat :: slug == Candidate(base, n) && slug !in taken &&
      forall k: nat | k < n :: Candidate(base, k) in taken
  }

  /** The first free attempt is determined by the base and the taken slugs. */
  lemma {:induction false} FirstFreeUnique(base: string, taken: set<string>, a: string, b: string)
    requires FirstFree(base, taken, a) && FirstFree(base, taken, b)
    ensures a == b
  {
    var na: nat :| a == Candidate(base, na) && a !in taken && forall k: nat | k < na :: Candidate(base, k) in taken;
    var nb: nat :| b == Candidate(base, nb) && b !in taken && forall k: nat | k < nb :: Candidate(base, k) in taken;
    assert !(na < nb);
    assert !(nb < na);
  }

  /** The attempt after `n` taken ones was not tried before, and the taken
      slugs outnumber the attempts. */
  lemma {:induction false} FreshAttempt(base: string, taken: set<string>, seen: set<string>, n: nat)
    requires Candidate(base, n) in taken
    requires forall x | x in seen :: exists k: nat | k < n :: x == Candidate(base, k)
    requires seen <= taken
    ensures Candidate(base, n) !in seen
    ensures |seen + {Candidate(base, n)}| <= |taken|
  {
    forall x | x in seen ensures x != Candidate(base, n) {
      var k: nat :| k < n && x == Candidate(base, k);
      CandidateInjective(base, k, n);
    }
    var grown := seen + {Candidate(base, n)};
    assert taken == grown + (taken - grown);
  }

  /** The loop of `generate_unique_slug`: try `base`, then `base-1`, `base-2`,
      ... until one is not taken. */
  method UniqueSlug(base: string, taken: set<string>) returns (slug: string)
    ensures slug !in taken
    ensures FirstFree(base, taken, slug)
  {
    slug := base;
    var counter: nat := 1;
    ghost var seen: set<string> := {};
    while slug in taken
      invariant slug == Candidate(base, counter - 1)
      invariant forall k: nat | k < counter - 1 :: Candidate(base, k) in taken
      invariant forall x | x in seen :: exists k: nat | k < counter - 1 :: x == Candidate(base, k)
      invariant seen <= taken && |seen| == counter - 1
      decreases |taken| - |seen|
    {
      FreshAttempt(base, taken, seen, counter - 1);
      ghost var tried := slug;
      seen := seen + {slug};
      slug := base + "-" + NatToString(counter);
      counter := counter + 1;
      assert tried == Candidate(base, counter - 2);
    }
    assert slug == Candidate(base, counter - 1) && slug !in taken;
  }

  // ---------------------------------------------------------------------------
  // extract_title_from_html
  // ---------------------------------------------------------------------------

  const OPEN_TAG: string := "<title>"
  const CLOSE_TAG: string := "</title>"
  const UNTITLED: string := "Untitled Tool"

  /** `a` spells `tag` (written in lower case), ignoring ASCII case. */
  predicate SpellsIgnoringCase(a: string, tag: string)
  {
    |a| == |tag| && (a == [] || (LowerChar(a[0]) == tag[0] && SpellsIgnoringCase(a[1..], tag[1..])))
  }

  /** `tag` (written in lower case) occurs at `i` in `s`, ignoring ASCII case. */
  predicate TagAt(s: string, i: nat, tag: string)
  {
    i + |tag| <= |s| && SpellsIgnoringCase(s[i..i + |tag|], tag)
  }

  /** No line break in `s[k..j]` (`.` does not match one). */
  predicate NoNewline(s: string, k: nat, j: nat)
  {
    forall m | k <= m < j && m < |s| :: s[m] != '\n'
  }

  /** `<title>(.*?)</title>` matches with the opening tag at `a` and the closing
      tag at `b`. */
  predicate TitleMatch(s: string, a: nat, b: nat)
  {
    a + |OPEN_TAG| <= b && TagAt(s, a, OPEN_TAG) && TagAt(s, b, CLOSE_TAG) && NoNewline(s, a + |OPEN_TAG|, b)
  }

  /** The first closing tag from `k` on, if no line break comes before it. */
  function CloseFrom(s: string, k: nat): (r: Option<nat>)
    ensures r.Some? ==> k <= r.value && r.value + |CLOSE_TAG| <= |s|
    decreases |s| - k
  {
    if k >= |s| then None
    else if TagAt(s, k, CLOSE_TAG) then Some(k)
    else if s[k] == '\n' then None
    else CloseFrom(s, k + 1)
  }

  /** The first match whose opening tag is at `i` or later, as `re.search`
      scans. */
  function TitleFrom(s: string, i: nat): Option<string>
    decreases |s| - i
  {
    if i >= |s| then None
    else if TagAt(s, i, OPEN_TAG) && CloseFrom(s, i + |OPEN_TAG|).Some? then
      var b := CloseFrom(s, i + |OPEN_TAG|).value;
      Some(s[i + |OPEN_TAG|..b])
    else TitleFrom(s, i + 1)
  }

  lemma {:induction false} CloseFromSpec(s: string, k: nat)
    ensures CloseFrom(s, k).Some? ==>
              var b := CloseFrom(s, k).value;
              k <= b && TagAt(s, b, CLOSE_TAG) && NoNewline(s, k, b) &&
              forall b': nat | k <= b' < b :: !TagAt(s, b', CLOSE_TAG)
    ensures CloseFrom(s, k).None? ==> forall b: nat | k <= b :: !(TagAt(s, b, CLOSE_TAG) && NoNewline(s, k, b))
    decreases |s| - k
  {
    if k < |s| && !TagAt(s, k, CLOSE_TAG) && s[k] != '\n' {
      CloseFromSpec(s, k + 1);
    }
  }

  /** The match with the opening tag at `a` and the closing tag at `b` is the
      one `re.search` reports when scanning from `i`: no match opens between
      `i` and `a`, and no closing tag closes the one at `a` sooner. */
  ghost predicate FirstMatch(s: string, i: nat, a: nat, b: nat)
  {
    && i <= a
    && TitleMatch(s, a, b)
    && (forall a': nat, b': nat | i <= a' < a :: !TitleMatch(s, a', b'))
    && (forall b': nat | b' < b :: !TitleMatch(s, a, b'))
  }

  /** The match found from `i` on is the leftmost one, and for that opening
      tag the nearest closing tag; there is none exactly when no match starts
      at `i` or later. */
  lemma {:induction false} TitleFromSpec(s: string, i: nat)
    ensures TitleFrom(s, i).Some? ==>
              exists a: nat, b: nat :: FirstMatch(s, i, a, b) && TitleFrom(s, i).value == s[a + |OPEN_TAG|..b]
    ensures TitleFrom(s, i).None? ==> forall a: nat, b: nat | i <= a :: !TitleMatch(s, a, b)
    decreases |s| - i
  {
    if i < |s| {
      var k := i + |OPEN_TAG|;
      CloseFromSpec(s, k);
      if TagAt(s, i, OPEN_TAG) && CloseFrom(s, k).Some? {
        var b := CloseFrom(s, k).value;
        assert TitleMatch(s, i, b);
        assert FirstMatch(s, i, i, b);
      } else {
        forall b: nat ensures !TitleMatch(s, i, b) {
        }
        TitleFromSpec(s, i + 1);
        if TitleFrom(s, i + 1).Some? {
          var a: nat, b: nat :| FirstMatch(s, i + 1, a, b) && TitleFrom(s, i + 1).value == s[a + |OPEN_TAG|..b];
          assert FirstMatch(s, i, a, b);
        }
      }
    }
  }

  /** `extract_title_from_html`: the text of the first `<title>` element that
      closes on its own line, or "Untitled Tool" when the content is empty or
      there is none. */
  function ExtractTitle(html: string): (title: string)
    ensures html == "" ==> title == UNTITLED
  {
    if html == "" then UNTITLED
    else match TitleFrom(html, 0)
      case Some(t) => t
      case None => UNTITLED
  }

  /** The title is the text of the leftmost, shortest match, and the fallback
      is used only when nothing matches. */
  lemma {:induction false} ExtractTitleSpec(html: string)
    ensures (html == "" || forall a: nat, b: nat :: !TitleMatch(html, a, b)) ==> ExtractTitle(html) == UNTITLED
    ensures html != "" && (exists a: nat, b: nat :: TitleMatch(html, a, b)) ==>
              exists a: nat, b: nat | TitleMatch(html, a, b) ::
                && ExtractTitle(html) == html[a + |OPEN_TAG|..b]
                && (forall a': nat, b': nat | a' < a :: !TitleMatch(html, a', b'))
                && (forall b': nat | b' < b :: !TitleMatch(html, a, b'))
  {
    TitleFromSpec(html, 0);
    if html != "" && TitleFrom(html, 0).Some? {
      var a: nat, b: nat :| FirstMatch(html, 0, a, b) && TitleFrom(html, 0).value == html[a + |OPEN_TAG|..b];
      assert TitleMatch(html, a, b) && ExtractTitle(html) == html[a + |OPEN_TAG|..b];
    }
  }

  /** A title never spans a line break. */
  lemma {:induction false} TitleOnOneLine(html: string)
    requires html != "" && exists a: nat, b: nat :: TitleMatch(html, a, b)
    ensures '\n' !in ExtractTitle(html)
  {
    ExtractTitleSpec(html);
    var a: nat, b: nat :| TitleMatch(html, a, b) && ExtractTitle(html) == html[a + |OPEN_TAG|..b];
    var t := ExtractTitle(html);
    forall m | 0 <= m < |t| ensures t[m] != '\n' {
      assert t[m] == html[a + |OPEN_TAG| + m];
    }
  }

  // ---------------------------------------------------------------------------
  // The Tool record
  // ---------------------------------------------------------------------------

  class Tool {
    var name: string
    var slug: string
    var htmlContent: string
    var updatedAt: int
    var lastExported: Option<int>

    constructor(name: string, slug: string, htmlContent: string, updatedAt: int, lastExported: Option<int>)
      ensures this.name == name && this.slug == slug && this.htmlContent == htmlContent
      ensures this.updatedAt == updatedAt && this.lastExported == lastExported
    {
      this.name := name;
      this.slug := slug;
      this.htmlContent := htmlContent;
      this.updatedAt := updatedAt;
      this.lastExported := lastExported;
    }

    /** `generate_unique_slug`: the first free slug made from the name. */
    method GenerateUniqueSlug(slugify: string -> string, taken: set<string>) returns (s: string)
      ensures s !in taken && FirstFree(slugify(name), taken, s)
    {
      s := UniqueSlug(slugify(name), taken);
    }

    /** `save` at time `now`: a slug is generated only when there is none.
        A full save stamps `updated_at` with `now` (`auto_now`); a save
        restricted to `update_fields` that leave `updated_at` out keeps it.
        An edit saved after the last export makes the tool need exporting. */
    method Save(slugify: string -> string, taken: set<string>, now: int, fullSave: bool)
      modifies this
      ensures old(slug) != "" ==> slug == old(slug)
      ensures old(slug) == "" ==> slug !in taken && FirstFree(slugify(name), taken, slug)
      ensures name == old(name) && htmlContent == old(htmlContent) && lastExported == old(lastExported)
      ensures updatedAt == (if fullSave then now else old(updatedAt))
      ensures fullSave && old(lastExported).Some? && now > old(lastExported).value ==> NeedsExport()
    {
      if slug == "" {
        slug := GenerateUniqueSlug(slugify, taken);
      }
      if fullSave {
        updatedAt := now;
      }
    }

    /** The export command's stamp: `last_exported` becomes `now` and only that
        field is saved, so `updated_at` is kept. Stamped no earlier than the
        last update, the tool no longer needs exporting. */
    method MarkExported(slugify: string -> string, taken: set<string>, now: int)
      modifies this
      ensures lastExported == Some(now) && updatedAt == old(updatedAt)
      ensures name == old(name) && htmlContent == old(htmlContent)
      ensures old(slug) != "" ==> slug == old(slug)
      ensures now >= old(updatedAt) ==> !NeedsExport()
    {
      lastExported := Some(now);
      Save(slugify, taken, now, false);
    }

    /** `needs_export`: never exported, or updated after the last export. */
    predicate NeedsExport()
      reads this
    {
      lastExported.None? || updatedAt > lastExported.value
    }
  }

  /** An export stamped at or after the last update settles a tool. */
  lemma {:induction false} ExportSettles(t: Tool)
    requires t.lastExported.Some? && t.updatedAt <= t.lastExported.value
    ensures !t.NeedsExport()
  {
  }

  /** A tool updated after its last export, or never exported, needs exporting. */
  lemma {:induction false} EditNeedsExport(t: Tool)
    requires t.lastExported.None? || t.updatedAt > t.lastExported.value
    ensures t.NeedsExport()
  {
  }
}
