/**
 * Portfolio projects (main/models.py): the technologies field is a
 * comma-separated list, read back as a list of trimmed names.
 */
module Projects {
  import opened Text

  /** Each piece trimmed. */
  function StripAll(pieces: seq<string>): (r: seq<string>)
    ensures |r| == |pieces| && forall i | 0 <= i < |r| :: r[i] == Strip(pieces[i])
  {
    if pieces == [] then [] else [Strip(pieces[0])] + StripAll(pieces[1..])
  }

  /** `get_technologies_list`: the pieces between the commas, in order, each
      trimmed, empty pieces kept. */
  function TechnologiesList(technologies: string): (r: seq<string>)
    ensures |r| == |SplitOn(technologies, ',')|
    ensures forall i | 0 <= i < |r| :: r[i] == Strip(SplitOn(technologies, ',')[i])
  {
    StripAll(SplitOn(technologies, ','))
  }

  /** Trimming never brings in a character the text lacks. */
  lemma {:induction false} StripLacks(s: string, c: char)
    requires c !in s
    ensures c !in Strip(s)
  {
    var a, b :| 0 <= a <= b <= |s| && Strip(s) == s[a..b];
    forall m | 0 <= m < b - a ensures s[a..b][m] != c {
      assert s[a..b][m] == s[a + m];
    }
  }

  /** No item holds a comma or starts or ends with whitespace. */
  lemma {:induction false} TechnologiesClean(technologies: string)
    ensures forall i | 0 <= i < |TechnologiesList(technologies)| ::
              var item := TechnologiesList(technologies)[i];
              ',' !in item && (item == [] || (!IsSpace(item[0]) && !IsSpace(item[|item| - 1])))
  {
    var pieces := SplitOn(technologies, ',');
    var r := TechnologiesList(technologies);
    forall i | 0 <= i < |r|
      ensures ',' !in r[i] && (r[i] == [] || (!IsSpace(r[i][0]) && !IsSpace(r[i][|r[i]| - 1])))
    {
      assert r[i] == Strip(pieces[i]);
      StripLacks(pieces[i], ',');
    }
  }

  /** One item per comma, plus one; no item holds a comma or starts or ends
      with whitespace; text without commas is a single trimmed item. */
  lemma {:induction false} TechnologiesListSpec(technologies: string)
    ensures |TechnologiesList(technologies)| == Count(technologies, ',') + 1
    ensures forall i | 0 <= i < |TechnologiesList(technologies)| ::
              var item := TechnologiesList(technologies)[i];
              ',' !in item && (item == [] || (!IsSpace(item[0]) && !IsSpace(item[|item| - 1])))
    ensures ',' !in technologies ==> TechnologiesList(technologies) == [Strip(technologies)]
  {
    SplitOnCount(technologies, ',');
    TechnologiesClean(technologies);
    if ',' !in technologies {
      assert SplitOn(technologies, ',') == [technologies];
    }
  }

  /** Joining the untrimmed pieces with commas gives the field back, so the
      items are the field's own pieces, in order. */
  lemma {:induction false} PiecesRebuildField(technologies: string)
    ensures Join(",", SplitOn(technologies, ',')) == technologies
  {
    SplitOnJoin(technologies, ',');
  }
}
