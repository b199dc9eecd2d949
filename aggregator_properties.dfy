/** Properties of the MangaAggregator adapter that relate several calls, and
    its behaviour on example inputs. */
module MangaAggregatorProperties {
  import opened Results
  import opened JsonTree
  import Text
  import opened MangaAggregator

  // ----------------------------------------------------------------- search

  /** For every query "source:term" optionally followed by ":more", the URL
      carries the piece before the first ':' and the piece between the first
      and the second; whatever follows the second ':' is dropped. */
  lemma {:induction false} SearchUrlPieces(baseUrl: string, source: string, search: string, rest: string)
    requires ':' !in source && ':' !in search
    requires rest == [] || rest[0] == ':'
    ensures SearchUrl(baseUrl, source + ":" + search + rest)
         == Ok(baseUrl + "/search?source=" + source + "&search=" + search)
  {
    var tail := search + rest;
    var q := source + ":" + search + rest;
    assert q == source + (":" + tail);
    Text.SplitPrepend(source, ":" + tail, ':');
    var p := Text.Split(":" + tail, ':');
    assert (":" + tail)[1..] == tail;
    assert p == [""] + Text.Split(tail, ':');
    Text.SplitPrepend(search, rest, ':');
    var r := Text.Split(rest, ':');
    if rest == [] {
      assert r[0] == "";
    } else {
      assert rest[0] == ':';
      assert r[0] == "";
    }
    assert Text.Split(tail, ':')[0] == search;
    assert Text.Split(q, ':')[0] == source && Text.Split(q, ':')[1] == search;
  }

  /** A query of the form "source:term". */
  lemma SearchExampleOneColon(baseUrl: string, query: string)
    requires query == "mangago:one piece"
    ensures SearchUrl(baseUrl, query) == Ok(baseUrl + "/search?source=" + "mangago" + "&search=" + "one piece")
  {
    assert "mangago" + ":" + "one piece" + "" == query;
    SearchUrlPieces(baseUrl, "mangago", "one piece", "");
  }

  /** A search term with a ':' inside is cut at that ':'. */
  lemma SearchExampleTwoColons(baseUrl: string, query: string)
    requires query == "mangago:re:zero"
    ensures SearchUrl(baseUrl, query) == Ok(baseUrl + "/search?source=" + "mangago" + "&search=" + "re")
  {
    assert "mangago" + ":" + "re" + ":zero" == query;
    SearchUrlPieces(baseUrl, "mangago", "re", ":zero");
  }

  /** A query without ':' fails on the index of the second piece. */
  lemma SearchExampleNoColon(baseUrl: string)
    ensures SearchUrl(baseUrl, "onepiece") == Err(IndexOutOfBounds(1, 1))
  {
  }

  // ----------------------------------------------------------------- status

  /** A missing status is unknown; the words are matched without regard to case. */
  lemma StatusExamplesSimple()
    ensures ToStatus(None) == Unknown
    ensures ToStatus(Some("ONGOING")) == Ongoing
    ensures ToStatus(Some("Hiatus")) == Unknown
  {
  }

  /** "complete" gives completed when "ongoing" is absent. */
  lemma StatusExampleCompleted()
    ensures ToStatus(Some("Completed")) == Completed
  {
    assert Text.OccursAt("Completed", "complete", 0);
    forall i | 0 <= i <= 2 ensures !Text.OccursAt("Completed", "ongoing", i) {
      assert Text.Lower("Completed"[i..i + 7])[1] != Text.Lower("ongoing")[1];
    }
  }

  /** "ongoing" is tested first, so it wins over "complete". */
  lemma StatusExampleOngoingFirst()
    ensures ToStatus(Some("complete, was ongoing")) == Ongoing
  {
    assert Text.OccursAt("complete, was ongoing", "ongoing", 14);
  }

  // ---------------------------------------------------------------- details

  predicate IsSoftKey(key: string) {
    key == "manga_genres" || key == "manga_artist" || key == "manga_author"
  }

  /** `f` and `g` agree on `k`: both lack it or both map it to the same value. */
  predicate AgreeOn(f: map<string, Json>, g: map<string, Json>, k: string) {
    (k in f <==> k in g) && (k in f ==> f[k] == g[k])
  }

  /** Success, description, status and cover of the detail parse depend only
      on the three required keys. */
  lemma DetailsDependOnRequiredKeys(f: map<string, Json>, g: map<string, Json>)
    requires AgreeOn(f, g, "manga_desc") && AgreeOn(f, g, "manga_status") && AgreeOn(f, g, "manga_cover")
    ensures ParseDetails(JObject(f)).Ok? == ParseDetails(JObject(g)).Ok?
    ensures ParseDetails(JObject(f)).Ok? ==>
      ParseDetails(JObject(f)).value.description == ParseDetails(JObject(g)).value.description &&
      ParseDetails(JObject(f)).value.status == ParseDetails(JObject(g)).value.status &&
      ParseDetails(JObject(f)).value.thumbnailUrl == ParseDetails(JObject(g)).value.thumbnailUrl
  {
  }

  /** Changing `changed` from `fields` only on one soft key keeps success,
      the required fields and the other soft fields. */
  lemma OnlySoftKeyDiffers(fields: map<string, Json>, changed: map<string, Json>, key: string)
    requires IsSoftKey(key)
    requires forall k :: k != key ==> AgreeOn(changed, fields, k)
    ensures
      var before := ParseDetails(JObject(fields));
      var after := ParseDetails(JObject(changed));
      after.Ok? == before.Ok? &&
      (after.Ok? ==>
        after.value.description == before.value.description &&
        after.value.status == before.value.status &&
        after.value.thumbnailUrl == before.value.thumbnailUrl &&
        (key != "manga_genres" ==> after.value.genre == before.value.genre) &&
        (key != "manga_artist" ==> after.value.artist == before.value.artist) &&
        (key != "manga_author" ==> after.value.author == before.value.author))
  {
    assert AgreeOn(changed, fields, "manga_desc");
    assert AgreeOn(changed, fields, "manga_status");
    assert AgreeOn(changed, fields, "manga_cover");
    DetailsDependOnRequiredKeys(changed, fields);
    if key != "manga_genres" { assert AgreeOn(changed, fields, "manga_genres"); }
    if key != "manga_artist" { assert AgreeOn(changed, fields, "manga_artist"); }
    if key != "manga_author" { assert AgreeOn(changed, fields, "manga_author"); }
  }

  /** Whatever the genre, artist or author key holds, or whether it is there
      at all, the detail parse succeeds or fails exactly as before, and only
      that one field of the result can change. */
  lemma SoftFieldsNeverDecideFailure(fields: map<string, Json>, key: string, v: Option<Json>)
    requires IsSoftKey(key)
    ensures
      var changed := if v.Some? then fields[key := v.value] else fields - {key};
      var before := ParseDetails(JObject(fields));
      var after := ParseDetails(JObject(changed));
      after.Ok? == before.Ok? &&
      (after.Ok? ==>
        after.value.description == before.value.description &&
        after.value.status == before.value.status &&
        after.value.thumbnailUrl == before.value.thumbnailUrl &&
        (key != "manga_genres" ==> after.value.genre == before.value.genre) &&
        (key != "manga_artist" ==> after.value.artist == before.value.artist) &&
        (key != "manga_author" ==> after.value.author == before.value.author))
  {
    var changed := if v.Some? then fields[key := v.value] else fields - {key};
    forall k | k != key ensures AgreeOn(changed, fields, k) {
    }
    OnlySoftKeyDiffers(fields, changed, key);
  }

  /** The three required keys may hold the JSON null token; with no genre,
      artist or author key the result is all null and the status unknown. */
  lemma NullRequiredValuesAreTolerated()
    ensures ParseDetails(JObject(map["manga_desc" := JNull, "manga_status" := JNull, "manga_cover" := JNull]))
         == Ok(MangaDetail(None, Unknown, None, None, None, None))
  {
  }

  /** A body without `manga_genres` still parses, with a null genre; the same
      body without `manga_status` fails on that key. */
  lemma MissingGenresVersusMissingStatus(desc: string, status: string, cover: string)
    ensures
      var o := map["manga_desc" := JString(desc), "manga_status" := JString(status), "manga_cover" := JString(cover)];
      ParseDetails(JObject(o)).Ok? && ParseDetails(JObject(o)).value.genre == None &&
      ParseDetails(JObject(o - {"manga_status"})) == Err(MissingKey("manga_status"))
  {
  }

  /** Genres are joined in order with ", "; a nested array among them makes
      the whole field null. */
  lemma GenreJoining(a: string, b: string)
    ensures JoinedOrNull(map["manga_genres" := JArray([JString(a), JString(b)])], "manga_genres") == Some(a + ", " + b)
    ensures JoinedOrNull(map["manga_genres" := JArray([JString(a), JArray([])])], "manga_genres") == None
    ensures JoinedOrNull(map["manga_genres" := JString(a)], "manga_genres") == None
  {
  }

  // ------------------------------------------------------------------ pages

  /** How the `isPaged` flag is read: only a primitive whose content is
      "false" in any case selects the literal URLs. */
  lemma FlagReadings()
    ensures BooleanOrNull(JBool(false)) == Some(false)
    ensures BooleanOrNull(JBool(true)) == Some(true)
    ensures BooleanOrNull(JNull) == None
    ensures BooleanOrNull(JString("False")) == Some(false)
    ensures BooleanOrNull(JNumber("0")) == None
  {
    assert Text.Lower("null") == "null";
    assert Text.Lower("False") == "false";
    assert Text.Lower("0") == "0";
  }

  // --------------------------------------------------------------- base URL

  /** Only one '/' is taken off. */
  lemma StripExamples()
    ensures StripTrailingSlash("a//") == "a/"
    ensures StripTrailingSlash("http://host:5000/") == "http://host:5000"
    ensures StripTrailingSlash("http://host:5000") == "http://host:5000"
    ensures StripTrailingSlash("") == ""
  {
  }
}
