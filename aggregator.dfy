/** The MangaAggregator source adapter: it turns the responses of a
    self-hosted aggregator service into the host application's manga,
    chapter and page records, and builds the search and base URLs. Every
    response arrives as a decoded JSON tree; every exception the Kotlin code
    can throw while reading it is an `Err`. The configured base URL is a
    parameter. */
module MangaAggregator {
  import opened Results
  import opened JsonTree
  import Text

  /** `SManga.UNKNOWN`, `SManga.ONGOING`, `SManga.COMPLETED` */
  datatype Status = Unknown | Ongoing | Completed

  /** A listing entry: the three fields a listing sets on an `SManga`. */
  datatype MangaSummary = MangaSummary(title: string, thumbnailUrl: string, url: string)

  datatype MangasPage = MangasPage(mangas: seq<MangaSummary>, hasNextPage: bool)

  /** The fields the detail response sets on an `SManga`; `None` is Kotlin's null. */
  datatype MangaDetail = MangaDetail(
    description: Option<string>,
    status: Status,
    thumbnailUrl: Option<string>,
    genre: Option<string>,
    artist: Option<string>,
    author: Option<string>)

  datatype Chapter = Chapter(name: string, url: string)

  /** `Page(index, url, imageUrl)`; the adapter always leaves `url` empty. */
  datatype Page = Page(index: nat, url: string, imageUrl: string)

  /** `ADDRESS_DEFAULT`, what the preference store gives when nothing is saved. */
  const AddressDefault: string := ""

  /** `body[key]!!.jsonArray`, with the body decoded as an object first. */
  function ArrayField(body: Json, key: string): (r: Result<seq<Json>>)
    ensures r.Ok? <==> HasArray(body, key)
    ensures r.Ok? ==> r.value == body.fields[key].elems
    ensures r.Err? ==> r.error == (if !body.JObject? then NotAnObject
                                   else if key !in body.fields then MissingKey(key)
                                   else NotAnArray)
  {
    var o :- AsObject(body);
    var v :- Get(o, key);
    AsArray(v)
  }

  // ---------------------------------------------------------------- listing

  predicate IsSummaryRecord(j: Json) {
    HasPrimitive(j, "manga_title") && HasPrimitive(j, "manga_cover") && HasPrimitive(j, "manga_url")
  }

  /** One element of `data`: all three keys are required. */
  function ParseSummary(j: Json): (r: Result<MangaSummary>)
    ensures r.Ok? <==> IsSummaryRecord(j)
    ensures r.Ok? ==> r.value == MangaSummary(Content(j.fields["manga_title"]),
                                              Content(j.fields["manga_cover"]),
                                              Content(j.fields["manga_url"]))
  {
    var title :- FieldContent(j, "manga_title");
    var cover :- FieldContent(j, "manga_cover");
    var url :- FieldContent(j, "manga_url");
    Ok(MangaSummary(title, cover, url))
  }

  /** `parseMangaFromJson`, shared by the popular, latest and search listings. */
  function ParseListing(body: Json): (r: Result<MangasPage>)
    ensures r.Ok? <==>
      HasArray(body, "data") &&
      forall i :: 0 <= i < |body.fields["data"].elems| ==> IsSummaryRecord(body.fields["data"].elems[i])
    ensures r.Ok? ==> !r.value.hasNextPage
    ensures r.Ok? ==>
      var data := body.fields["data"].elems;
      |r.value.mangas| == |data| &&
      forall i :: 0 <= i < |data| ==>
        r.value.mangas[i] == MangaSummary(Content(data[i].fields["manga_title"]),
                                          Content(data[i].fields["manga_cover"]),
                                          Content(data[i].fields["manga_url"]))
    ensures !body.JObject? ==> r == Err(NotAnObject)
    ensures body.JObject? && "data" !in body.fields ==> r == Err(MissingKey("data"))
    ensures body.JObject? && "data" in body.fields && !body.fields["data"].JArray? ==> r == Err(NotAnArray)
  {
    var data :- ArrayField(body, "data");
    var mangas :- MapAll(ParseSummary, data);
    Ok(MangasPage(mangas, false))
  }

  /** An empty `data` array still gives a page that reports no next page. */
  lemma EmptyListing()
    ensures ParseListing(JObject(map["data" := JArray([])])) == Ok(MangasPage([], false))
  {
  }

  /** A JSON null title is not a failure: it is read as the text "null". */
  lemma NullTitleIsText(cover: string, url: string)
    ensures ParseSummary(JObject(map["manga_title" := JNull, "manga_cover" := JString(cover),
                                     "manga_url" := JString(url)]))
         == Ok(MangaSummary("null", cover, url))
  {
  }

  // --------------------------------------------------------------- chapters

  predicate IsChapterRecord(j: Json) {
    HasPrimitive(j, "chapter_title") && HasPrimitive(j, "chapter_url")
  }

  function ParseChapter(j: Json): (r: Result<Chapter>)
    ensures r.Ok? <==> IsChapterRecord(j)
    ensures r.Ok? ==> r.value == Chapter(Content(j.fields["chapter_title"]), Content(j.fields["chapter_url"]))
  {
    var name :- FieldContent(j, "chapter_title");
    var url :- FieldContent(j, "chapter_url");
    Ok(Chapter(name, url))
  }

  /** `chapterListParse`: chapters in the order of `manga_chapters`. */
  function ParseChapterList(body: Json): (r: Result<seq<Chapter>>)
    ensures r.Ok? <==>
      HasArray(body, "manga_chapters") &&
      forall i :: 0 <= i < |body.fields["manga_chapters"].elems| ==>
        IsChapterRecord(body.fields["manga_chapters"].elems[i])
    ensures r.Ok? ==>
      var cs := body.fields["manga_chapters"].elems;
      |r.value| == |cs| &&
      forall i :: 0 <= i < |cs| ==>
        r.value[i] == Chapter(Content(cs[i].fields["chapter_title"]), Content(cs[i].fields["chapter_url"]))
    ensures !body.JObject? ==> r == Err(NotAnObject)
    ensures body.JObject? && "manga_chapters" !in body.fields ==> r == Err(MissingKey("manga_chapters"))
    ensures body.JObject? && "manga_chapters" in body.fields && !body.fields["manga_chapters"].JArray? ==>
      r == Err(NotAnArray)
  {
    var cs :- ArrayField(body, "manga_chapters");
    MapAll(ParseChapter, cs)
  }

  // ---------------------------------------------------------------- details

  /** `String?.toStatus()`: the tests run in this order, so a text that
      mentions both words is ongoing. */
  function ToStatus(text: Option<string>): (st: Status)
    ensures text.None? ==> st == Unknown
    ensures text.Some? ==> (st == Ongoing <==> Text.Mentions(text.value, "ongoing"))
    ensures text.Some? ==>
      (st == Completed <==> !Text.Mentions(text.value, "ongoing") && Text.Mentions(text.value, "complete"))
  {
    match text
    case None => Unknown
    case Some(s) =>
      Text.ContainsIgnoreCaseCorrect(s, "ongoing");
      Text.ContainsIgnoreCaseCorrect(s, "complete");
      if Text.ContainsIgnoreCase(s, "ongoing") then Ongoing
      else if Text.ContainsIgnoreCase(s, "complete") then Completed
      else Unknown
  }

  /** `body[key]!!.jsonPrimitive.contentOrNull`: the key is required, its
      value may be the null token. */
  function RequiredNullable(o: map<string, Json>, key: string): (r: Result<Option<string>>)
    ensures r.Ok? <==> key in o && o[key].IsPrimitive()
    ensures r.Ok? ==> (r.value.None? <==> o[key] == JNull)
    ensures r.Ok? && r.value.Some? ==> r.value.value == Content(o[key])
    ensures key !in o ==> r == Err(MissingKey(key))
  {
    var v :- Get(o, key);
    var p :- AsPrimitive(v);
    Ok(ContentOrNull(p))
  }

  /** `body[key]!!.jsonArray.joinToString { it.jsonPrimitive.content }`. */
  function JoinedField(o: map<string, Json>, key: string): (r: Result<string>)
    ensures r.Ok? <==> key in o && o[key].JArray? && AllPrimitive(o[key].elems)
    ensures r.Ok? ==> r.value == Text.Join(Contents(o[key].elems), ", ")
  {
    var v :- Get(o, key);
    var xs :- AsArray(v);
    var parts :- MapAll(PrimitiveContent, xs);
    assert parts == Contents(xs);
    Ok(Text.Join(parts, ", "))
  }

  /** The same inside `try { … } catch (_: Exception) { null }`: any failure
      becomes null. */
  function JoinedOrNull(o: map<string, Json>, key: string): (r: Option<string>)
    ensures r.Some? <==> key in o && o[key].JArray? && AllPrimitive(o[key].elems)
    ensures r.Some? ==> r.value == Text.Join(Contents(o[key].elems), ", ")
  {
    var joined := JoinedField(o, key);
    if joined.Ok? then Some(joined.value) else None
  }

  /** `mangaDetailsParse` */
  function ParseDetails(body: Json): (r: Result<MangaDetail>)
    ensures r.Ok? <==>
      HasPrimitive(body, "manga_desc") && HasPrimitive(body, "manga_status") && HasPrimitive(body, "manga_cover")
    ensures r.Ok? ==>
      var o := body.fields;
      r.value == MangaDetail(ContentOrNull(o["manga_desc"]), ToStatus(ContentOrNull(o["manga_status"])),
                             ContentOrNull(o["manga_cover"]), JoinedOrNull(o, "manga_genres"),
                             JoinedOrNull(o, "manga_artist"), JoinedOrNull(o, "manga_author"))
    ensures !body.JObject? ==> r == Err(NotAnObject)
    ensures body.JObject? && "manga_desc" !in body.fields ==> r == Err(MissingKey("manga_desc"))
    ensures HasPrimitive(body, "manga_desc") && "manga_status" !in body.fields ==>
      r == Err(MissingKey("manga_status"))
    ensures HasPrimitive(body, "manga_desc") && HasPrimitive(body, "manga_status") && "manga_cover" !in body.fields ==>
      r == Err(MissingKey("manga_cover"))
  {
    var o :- AsObject(body);
    var description :- RequiredNullable(o, "manga_desc");
    var status :- RequiredNullable(o, "manga_status");
    var cover :- RequiredNullable(o, "manga_cover");
    Ok(MangaDetail(description, ToStatus(status), cover, JoinedOrNull(o, "manga_genres"),
                   JoinedOrNull(o, "manga_artist"), JoinedOrNull(o, "manga_author")))
  }

  // ------------------------------------------------------------------ pages

  /** What `pageListParse` needs to succeed. */
  predicate IsPageListBody(body: Json) {
    HasPrimitive(body, "isPaged") && HasArray(body, "pages") && AllPrimitive(body.fields["pages"].elems)
  }

  /** `isPaged` reads as the boolean false: the page entries are full URLs. */
  predicate UrlsAreLiteral(body: Json)
    requires HasPrimitive(body, "isPaged")
  {
    BooleanOrNull(body.fields["isPaged"]) == Some(false)
  }

  /** `pageListParse`: one page per entry of `pages`, numbered from 0 in order. */
  method PageListParse(baseUrl: string, body: Json) returns (r: Result<seq<Page>>)
    ensures r.Ok? <==> IsPageListBody(body)
    ensures r.Ok? ==>
      var xs := body.fields["pages"].elems;
      |r.value| == |xs| &&
      forall i :: 0 <= i < |xs| ==>
        r.value[i].index == i && r.value[i].url == "" &&
        r.value[i].imageUrl == (if UrlsAreLiteral(body) then Content(xs[i]) else baseUrl + Content(xs[i]))
    ensures !body.JObject? ==> r == Err(NotAnObject)
    ensures body.JObject? && "isPaged" !in body.fields ==> r == Err(MissingKey("isPaged"))
    ensures HasPrimitive(body, "isPaged") && "pages" !in body.fields ==> r == Err(MissingKey("pages"))
  {
    if !body.JObject? {
      return Err(NotAnObject);
    }
    var o := body.fields;
    if "isPaged" !in o {
      return Err(MissingKey("isPaged"));
    }
    if !o["isPaged"].IsPrimitive() {
      return Err(NotAPrimitive);
    }
    var literal := BooleanOrNull(o["isPaged"]) == Some(false);
    if "pages" !in o {
      return Err(MissingKey("pages"));
    }
    if !o["pages"].JArray? {
      return Err(NotAnArray);
    }
    var xs := o["pages"].elems;
    var pages: seq<Page> := [];
    var i := 0;
    while i < |xs|
      invariant 0 <= i <= |xs|
      invariant |pages| == i
      invariant forall k :: 0 <= k < i ==>
        xs[k].IsPrimitive() && pages[k].index == k && pages[k].url == "" &&
        pages[k].imageUrl == (if literal then Content(xs[k]) else baseUrl + Content(xs[k]))
    {
      if !xs[i].IsPrimitive() {
        return Err(NotAPrimitive);
      }
      var content := Content(xs[i]);
      pages := pages + [Page(i, "", if literal then content else baseUrl + content)];
      i := i + 1;
    }
    return Ok(pages);
  }

  // ----------------------------------------------------------------- search

  /** The URL `searchMangaRequest` asks for: the query is split on every
      ':', the first piece is the source and the second the search term. */
  function SearchUrl(baseUrl: string, query: string): (r: Result<string>)
    ensures r.Ok? <==> ':' in query
    ensures r.Err? ==> r.error == IndexOutOfBounds(1, 1)
  {
    var list := Text.Split(query, ':');
    Text.SplitHasSecondPiece(query, ':');
    if |list| < 2 then Err(IndexOutOfBounds(1, |list|))
    else
      var source := list[0];
      var search := list[1];
      Ok(baseUrl + "/search?source=" + source + "&search=" + search)
  }

  // --------------------------------------------------------------- base URL

  /** The stored address with one trailing '/' taken off, if it has one. */
  function StripTrailingSlash(s: string): (r: string)
    ensures r == s <==> s == [] || s[|s| - 1] != '/'
    ensures r != s ==> r + "/" == s
    ensures |s| - 1 <= |r| <= |s|
  {
    if s != [] && s[|s| - 1] == '/' then s[..|s| - 1] else s
  }

  /** `getPrefBaseUrl`: `saved` is the address in the preference store. */
  method PrefBaseUrl(saved: Option<string>) returns (path: string)
    ensures path == StripTrailingSlash(if saved.Some? then saved.value else AddressDefault)
  {
    path := if saved.Some? then saved.value else AddressDefault;
    if |path| > 0 && path[|path| - 1] == '/' {
      path := path[..|path| - 1];
    }
  }
}
