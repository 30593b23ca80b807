/**
 * Recipes (recipes/models.py): the fields saving back-fills from the recipe's
 * JSON document, the difficulty rule, and the lists read from that document.
 *
 * The document is a JSON object; the back-filled attributes hold whatever
 * JSON value the document has under their key. Django's `slugify` is the
 * parameter `slugify` and `timezone.now()` the parameter `now`.
 */
module Recipes {
  import opened Wrappers

  datatype Json =
    | JNull
    | JBool(b: bool)
    | JNum(n: real)
    | JStr(s: string)
    | JArr(items: seq<Json>)
    | JObj(members: map<string, Json>)

  /** Python truthiness of a decoded JSON value. */
  predicate Truthy(v: Json)
  {
    match v
    case JNull => false
    case JBool(b) => b
    case JNum(n) => n != 0.0
    case JStr(s) => s != ""
    case JArr(items) => items != []
    case JObj(members) => members != map[]
  }

  const EASY: Json := JStr("Easy")
  const MEDIUM: Json := JStr("Medium")
  const HARD: Json := JStr("Hard")

  /** `data.get(key, default)`. */
  function Get(data: map<string, Json>, key: string, default: Json): Json
  {
    if key in data then data[key] else default
  }

  /** A back-filled field: kept when set, otherwise the document's value under
      `key`, or `''`. */
  function Fill(field: Json, data: map<string, Json>, key: string): Json
  {
    if Truthy(field) then field else Get(data, key, JStr(""))
  }

  /** The difficulty: replaced by the document's (default "Easy") when unset
      or "Easy"; any other value is kept. */
  function Difficulty(difficulty: Json, data: map<string, Json>): Json
  {
    if !Truthy(difficulty) || difficulty == EASY then Get(data, "difficulty", EASY) else difficulty
  }

  /** Filling and the difficulty rule settle after one save: applied to their
      own result they give it back. "Medium" and "Hard" are never replaced. */
  lemma {:induction false} FillRulesSettle(field: Json, difficulty: Json, data: map<string, Json>, key: string)
    ensures Fill(Fill(field, data, key), data, key) == Fill(field, data, key)
    ensures Difficulty(Difficulty(difficulty, data), data) == Difficulty(difficulty, data)
    ensures Difficulty(MEDIUM, data) == MEDIUM && Difficulty(HARD, data) == HARD
  {
  }

  /** The list stored under `key`, or an empty list. */
  function ListField(data: map<string, Json>, key: string): Json
  {
    Get(data, key, JArr([]))
  }

  /** What a list property reads: storing `v` under `key` reads back `v`;
      storing under another key leaves the list unchanged; an empty document
      has only empty lists; and a non-empty list comes from the document. */
  lemma {:induction false} ListFieldSpec(data: map<string, Json>, key: string, other: string, v: Json)
    ensures ListField(data[key := v], key) == v
    ensures other != key ==> ListField(data[other := v], key) == ListField(data, key)
    ensures ListField(map[], key) == JArr([])
    ensures Truthy(ListField(data, key)) ==> key in data
  {
  }

  class Recipe {
    var name: Json
    var slug: string
    var description: Json
    var prepTime: Json
    var cookTime: Json
    var totalTime: Json
    var servings: Json
    var difficulty: Json
    var recipeData: map<string, Json>
    var isPublished: bool
    var publishedAt: Option<int>

    constructor(recipeData: map<string, Json>, isPublished: bool)
      ensures this.recipeData == recipeData && this.isPublished == isPublished
      ensures name == JStr("") && slug == "" && description == JStr("")
      ensures prepTime == JStr("") && cookTime == JStr("") && totalTime == JStr("") && servings == JStr("")
      ensures difficulty == EASY && publishedAt == None
    {
      this.recipeData := recipeData;
      this.isPublished := isPublished;
      name := JStr("");
      slug := "";
      description := JStr("");
      prepTime := JStr("");
      cookTime := JStr("");
      totalTime := JStr("");
      servings := JStr("");
      difficulty := EASY;
      publishedAt := None;
    }

    /** `ingredients`. */
    function Ingredients(): Json
      reads this
    {
      ListField(recipeData, "ingredients")
    }

    /** `instructions`. */
    function Instructions(): Json
      reads this
    {
      ListField(recipeData, "instructions")
    }

    /** `notes`. */
    function Notes(): Json
      reads this
    {
      ListField(recipeData, "notes")
    }

    /** The back-filling part of `save`, for a non-empty document. */
    method BackFill()
      requires recipeData != map[]
      modifies this
      ensures name == Fill(old(name), recipeData, "name")
      ensures description == Fill(old(description), recipeData, "description")
      ensures prepTime == Fill(old(prepTime), recipeData, "prepTime")
      ensures cookTime == Fill(old(cookTime), recipeData, "cookTime")
      ensures totalTime == Fill(old(totalTime), recipeData, "totalTime")
      ensures servings == Fill(old(servings), recipeData, "servings")
      ensures difficulty == Difficulty(old(difficulty), recipeData)
      ensures slug == old(slug) && publishedAt == old(publishedAt)
      ensures recipeData == old(recipeData) && isPublished == old(isPublished)
    {
      var data := recipeData;
      var name', description' := Fill(name, data, "name"), Fill(description, data, "description");
      var prep', cook' := Fill(prepTime, data, "prepTime"), Fill(cookTime, data, "cookTime");
      var total', servings' := Fill(totalTime, data, "totalTime"), Fill(servings, data, "servings");
      var difficulty' := Difficulty(difficulty, data);
      name, description, prepTime, cookTime := name', description', prep', cook';
      totalTime, servings, difficulty := total', servings', difficulty';
    }

    /** `save`: with a non-empty document, back-fills the six descriptive
        fields and applies the difficulty rule; an empty document changes none
        of them. The lists read from the document stay as they were. Then a
        slug is made from the (possibly filled) name only when there is none,
        and the publication time is set once. */
    method Save(slugify: Json -> string, now: int)
      modifies this
      ensures recipeData == old(recipeData) && isPublished == old(isPublished)
      ensures Ingredients() == old(Ingredients()) && Instructions() == old(Instructions()) && Notes() == old(Notes())
      ensures recipeData == map[] ==>
                && name == old(name) && description == old(description)
                && prepTime == old(prepTime) && cookTime == old(cookTime) && totalTime == old(totalTime)
                && servings == old(servings) && difficulty == old(difficulty)
      ensures recipeData != map[] ==>
                && name == Fill(old(name), recipeData, "name")
                && description == Fill(old(description), recipeData, "description")
                && prepTime == Fill(old(prepTime), recipeData, "prepTime")
                && cookTime == Fill(old(cookTime), recipeData, "cookTime")
                && totalTime == Fill(old(totalTime), recipeData, "totalTime")
                && servings == Fill(old(servings), recipeData, "servings")
                && difficulty == Difficulty(old(difficulty), recipeData)
      ensures slug == (if old(slug) == "" then slugify(name) else old(slug))
      ensures publishedAt == (if isPublished && old(publishedAt).None? then Some(now) else old(publishedAt))
    {
      if recipeData != map[] {
        BackFill();
      }
      if slug == "" {
        slug := slugify(name);
      }
      if isPublished && publishedAt.None? {
        publishedAt := Some(now);
      }
    }
  }
}
