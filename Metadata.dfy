/** The metadata record that `upload_video` sends with the upload request, and the
    `part` argument derived from its keys. */
module Metadata {
  import opened Json
  import Text

  const DEFAULT_CATEGORY_ID: string := "22"
  const DEFAULT_PRIVACY_STATUS: string := "private"

  /** `tags or []`: a missing list and an empty list both become the empty list. */
  function TagsOrEmpty(tags: Option<seq<string>>): (r: seq<string>)
    ensures tags.None? ==> r == []
    ensures tags.Some? ==> r == tags.value
  {
    if tags.Some? && |tags.value| > 0 then tags.value else []
  }

  /** The request body: a `snippet` section with the title, the description, the
      tags and the category, then a `status` section with the privacy status and
      the made-for-kids declaration, which is always false. The optional arguments
      take the defaults of `upload_video`. */
  function Body(title: string, description: string := "", tags: Option<seq<string>> := None,
                categoryId: string := DEFAULT_CATEGORY_ID,
                privacyStatus: string := DEFAULT_PRIVACY_STATUS): (body: Value)
    ensures body.Object? && Keys(body.fields) == ["snippet", "status"]
  {
    Object([
      Field("snippet", Object(Snippet(title, description, tags, categoryId))),
      Field("status", Object(Status(privacyStatus)))])
  }

  /** `','.join(body.keys())` for a dict body. When no key contains a comma, splitting `part` at the commas gives back the
      keys, so it names exactly the body's sections, in order. */
  function Part(body: Value): (part: string)
    requires body.Object?
    ensures |body.fields| > 0 &&
            (forall i :: 0 <= i < |body.fields| ==> ',' !in body.fields[i].key) ==>
      Text.Split(part, ',') == Keys(body.fields)
  {
    var keys := Keys(body.fields);
    if |keys| > 0 && forall i :: 0 <= i < |keys| ==> ',' !in keys[i] then
      (Text.SplitJoin(',', keys); Text.Join(',', keys))
    else Text.Join(',', keys)
  }

  /** The body's `snippet` section. */
  function Snippet(title: string, description: string, tags: Option<seq<string>>,
                   categoryId: string): seq<Field>
  {
    [Field("title", Str(title)),
     Field("description", Str(description)),
     Field("tags", StrList(TagsOrEmpty(tags))),
     Field("categoryId", Str(categoryId))]
  }

  /** The body's `status` section. */
  function Status(privacyStatus: string): seq<Field> {
    [Field("privacyStatus", Str(privacyStatus)),
     Field("selfDeclaredMadeForKids", Bool(false))]
  }

  /** Every argument lands at its place in the body, `tags` after `tags or []`, and
      the made-for-kids flag is false whatever the arguments; the two sections hold
      these fields and no others. */
  lemma BodyFields(title: string, description: string, tags: Option<seq<string>>,
                   categoryId: string, privacyStatus: string)
    ensures var body := Body(title, description, tags, categoryId, privacyStatus);
      Get(body, ["snippet"]) == Some(Object(Snippet(title, description, tags, categoryId))) &&
      Get(body, ["status"]) == Some(Object(Status(privacyStatus)))
    ensures Keys(Snippet(title, description, tags, categoryId)) ==
      ["title", "description", "tags", "categoryId"]
    ensures Keys(Status(privacyStatus)) == ["privacyStatus", "selfDeclaredMadeForKids"]
    ensures var body := Body(title, description, tags, categoryId, privacyStatus);
      Get(body, ["snippet", "title"]) == Some(Str(title)) &&
      Get(body, ["snippet", "description"]) == Some(Str(description)) &&
      Get(body, ["snippet", "tags"]) == Some(StrList(if tags.Some? then tags.value else [])) &&
      Get(body, ["snippet", "categoryId"]) == Some(Str(categoryId)) &&
      Get(body, ["status", "privacyStatus"]) == Some(Str(privacyStatus)) &&
      Get(body, ["status", "selfDeclaredMadeForKids"]) == Some(Bool(false))
  {
    SectionsFound(title, description, tags, categoryId, privacyStatus);
    SectionKeys(title, description, tags, categoryId, privacyStatus);
    SnippetFields(title, description, tags, categoryId, privacyStatus);
    StatusFields(title, description, tags, categoryId, privacyStatus);
  }

  lemma SectionKeys(title: string, description: string, tags: Option<seq<string>>,
                    categoryId: string, privacyStatus: string)
    ensures Keys(Snippet(title, description, tags, categoryId)) ==
      ["title", "description", "tags", "categoryId"]
    ensures Keys(Status(privacyStatus)) == ["privacyStatus", "selfDeclaredMadeForKids"]
  {
  }

  lemma SectionsFound(title: string, description: string, tags: Option<seq<string>>,
                      categoryId: string, privacyStatus: string)
    ensures var body := Body(title, description, tags, categoryId, privacyStatus);
      Get(body, ["snippet"]) == Some(Object(Snippet(title, description, tags, categoryId))) &&
      Get(body, ["status"]) == Some(Object(Status(privacyStatus)))
  {
    var body := Body(title, description, tags, categoryId, privacyStatus);
    assert "snippet" != "status";
    LookupFirst(body.fields, 0);
    LookupFirst(body.fields, 1);
    assert ["snippet"][1..] == [] && ["status"][1..] == [];
  }

  lemma SnippetFields(title: string, description: string, tags: Option<seq<string>>,
                      categoryId: string, privacyStatus: string)
    ensures var body := Body(title, description, tags, categoryId, privacyStatus);
      Get(body, ["snippet", "title"]) == Some(Str(title)) &&
      Get(body, ["snippet", "description"]) == Some(Str(description)) &&
      Get(body, ["snippet", "tags"]) == Some(StrList(TagsOrEmpty(tags))) &&
      Get(body, ["snippet", "categoryId"]) == Some(Str(categoryId))
  {
    var body := Body(title, description, tags, categoryId, privacyStatus);
    var snippet := Snippet(title, description, tags, categoryId);
    SnippetField(body.fields, snippet, 0);
    SnippetField(body.fields, snippet, 1);
    SnippetField(body.fields, snippet, 2);
    SnippetField(body.fields, snippet, 3);
  }

  /** The four snippet keys are distinct, so each path finds its own field. */
  lemma SnippetField(fields: seq<Field>, snippet: seq<Field>, j: nat)
    requires |fields| > 0 && fields[0] == Field("snippet", Object(snippet))
    requires |snippet| == 4 && j < 4
    requires snippet[0].key == "title" && snippet[1].key == "description"
    requires snippet[2].key == "tags" && snippet[3].key == "categoryId"
    ensures Get(Object(fields), ["snippet", snippet[j].key]) == Some(snippet[j].value)
  {
    assert "title"[0] != "description"[0] && "title"[1] != "tags"[1];
    assert "title"[0] != "categoryId"[0] && "description"[0] != "tags"[0];
    assert "description"[0] != "categoryId"[0] && "tags"[0] != "categoryId"[0];
    GetNested(fields, 0, snippet, j);
  }

  lemma StatusFields(title: string, description: string, tags: Option<seq<string>>,
                     categoryId: string, privacyStatus: string)
    ensures var body := Body(title, description, tags, categoryId, privacyStatus);
      Get(body, ["status", "privacyStatus"]) == Some(Str(privacyStatus)) &&
      Get(body, ["status", "selfDeclaredMadeForKids"]) == Some(Bool(false))
  {
    var body := Body(title, description, tags, categoryId, privacyStatus);
    var status := Status(privacyStatus);
    assert "snippet" != "status";
    assert "privacyStatus" != "selfDeclaredMadeForKids";
    GetNested(body.fields, 1, status, 0);
    GetNested(body.fields, 1, status, 1);
  }

  /** With only a title, the body has an empty description, no tags, category "22"
      and privacy "private". */
  lemma BodyDefaults(title: string)
    ensures var body := Body(title);
      Get(body, ["snippet", "description"]) == Some(Str("")) &&
      Get(body, ["snippet", "tags"]) == Some(StrList([])) &&
      Get(body, ["snippet", "categoryId"]) == Some(Str("22")) &&
      Get(body, ["status", "privacyStatus"]) == Some(Str("private"))
  {
    BodyFields(title, "", None, DEFAULT_CATEGORY_ID, DEFAULT_PRIVACY_STATUS);
  }

  /** The `part` argument names exactly the two sections of the body, in order, and
      splitting it at the commas gives back the body's keys. */
  lemma PartOfBody(title: string, description: string, tags: Option<seq<string>>,
                   categoryId: string, privacyStatus: string)
    ensures var body := Body(title, description, tags, categoryId, privacyStatus);
      Part(body) == "snippet,status" && Text.Split(Part(body), ',') == Keys(body.fields)
  {
    var body := Body(title, description, tags, categoryId, privacyStatus);
    assert Keys(body.fields) == ["snippet", "status"];
    assert Text.Join(',', ["snippet", "status"]) == "snippet" + [','] + Text.Join(',', ["status"]);
    assert Part(body) == "snippet" + [','] + "status";
    SectionsSplit();
  }

  lemma SectionsSplit()
    ensures Text.Split("snippet" + [','] + "status", ',') == ["snippet", "status"]
  {
    Text.SplitConcat("snippet", ',', "status");
    Text.SplitSingle("snippet", ',');
    Text.SplitSingle("status", ',');
  }
}
