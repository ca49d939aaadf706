/**
  `fetch_metadata` of serpapi_search.py. The fetched page is given already
  parsed: its `<title>`, its `<meta>` tags and its `<time>` tags, each list in
  document order. ISO-8601 normalisation and the clock are parameters.
*/
module MetaTags {
  import opened Wrappers
  import opened Text

  /** A parsed tag: its attribute dictionary and its text. */
  datatype Tag = Tag(attrs: map<string, string>, text: string)

  /** `soup.title`: absent, or present with a `.string` that may be None. */
  datatype Title = NoTitleTag | TitleTag(str: Option<string>)

  datatype Document = Document(title: Title, metas: seq<Tag>, times: seq<Tag>)

  /** The returned dictionary; `title` and `time` may hold None. */
  datatype Metadata = Metadata(
    title: Option<string>,
    description: string,
    keywords: string,
    time: Option<string>,
    location: string)

  const TimeProperties: seq<string> := ["og:time", "article:published_time", "article:modified_time"]
  const LocationProperties: seq<string> := ["og:location", "article:section"]

  /** The four dictionary entries a `<meta>` tag can set. */
  datatype Field = Description | Keywords | Time | Location

  /** Whether the loop body assigns field `f` from tag `t` (keys compared after `.lower()`). */
  predicate Sets(f: Field, t: Tag) {
    match f
    case Description => "name" in t.attrs && Lower(t.attrs["name"]) == "description"
    case Keywords => "name" in t.attrs && Lower(t.attrs["name"]) == "keywords"
    case Time => "property" in t.attrs && Lower(t.attrs["property"]) in TimeProperties
    case Location => "property" in t.attrs && Lower(t.attrs["property"]) in LocationProperties
  }

  predicate Relevant(t: Tag) {
    Sets(Description, t) || Sets(Keywords, t) || Sets(Time, t) || Sets(Location, t)
  }

  /** A tag on which reading `meta.attrs['content']` raises KeyError. */
  predicate MissingContent(t: Tag) {
    Relevant(t) && "content" !in t.attrs
  }

  /** The value a field holds, with the string fields wrapped in Some. */
  function Value(f: Field, m: Metadata): Option<string> {
    match f
    case Description => Some(m.description)
    case Keywords => Some(m.keywords)
    case Time => m.time
    case Location => Some(m.location)
  }

  /** `soup.title.string if soup.title else 'No title'`. */
  function TitleValue(t: Title): Option<string> {
    match t
    case NoTitleTag => Some("No title")
    case TitleTag(s) => s
  }

  /** The dictionary as it stands before the loop. */
  function Initial(doc: Document): Metadata {
    Metadata(TitleValue(doc.title), "", "", None, "")
  }

  /** One iteration of the `<meta>` loop; None when it raises. */
  function ApplyMeta(m: Metadata, t: Tag): (r: Option<Metadata>)
    ensures r.None? <==> MissingContent(t)
    ensures r.Some? ==> r.value.title == m.title
    ensures forall f :: r.Some? && !Sets(f, t) ==> Value(f, r.value) == Value(f, m)
    ensures forall f :: r.Some? && Sets(f, t) ==> Value(f, r.value) == Some(t.attrs["content"])
  {
    if !Relevant(t) then Some(m)
    else if "content" !in t.attrs then None
    else
      var c := t.attrs["content"];
      Some(Metadata(
        m.title,
        if Sets(Description, t) then c else m.description,
        if Sets(Keywords, t) then c else m.keywords,
        if Sets(Time, t) then Some(c) else m.time,
        if Sets(Location, t) then c else m.location))
  }

  /** The `<meta>` loop over `metas`, started from `m`; None as soon as an iteration raises. */
  function FoldMetas(m: Metadata, metas: seq<Tag>): (r: Option<Metadata>)
    ensures r.None? <==> exists j :: 0 <= j < |metas| && MissingContent(metas[j])
    ensures r.Some? ==> r.value.title == m.title
    decreases |metas|
  {
    if metas == [] then Some(m)
    else
      var init := metas[..|metas| - 1];
      assert forall j :: 0 <= j < |init| ==> init[j] == metas[j];
      match FoldMetas(m, init)
      case None => None
      case Some(m') => ApplyMeta(m', metas[|metas| - 1])
  }

  /**
    Last wins: after the loop, a field holds the content of the LAST tag that
    sets it, or its initial value when no tag sets it.
  */
  lemma {:induction false} FoldLastWins(m: Metadata, metas: seq<Tag>, f: Field)
    requires forall j :: 0 <= j < |metas| ==> !MissingContent(metas[j])
    ensures FoldMetas(m, metas).Some?
    ensures forall i :: 0 <= i < |metas| && Sets(f, metas[i]) && (forall j :: i < j < |metas| ==> !Sets(f, metas[j])) ==>
      Value(f, FoldMetas(m, metas).value) == Some(metas[i].attrs["content"])
    ensures (forall j :: 0 <= j < |metas| ==> !Sets(f, metas[j])) ==>
      Value(f, FoldMetas(m, metas).value) == Value(f, m)
    decreases |metas|
  {
    if metas != [] {
      var n := |metas| - 1;
      var init := metas[..n];
      assert forall j :: 0 <= j < |init| ==> init[j] == metas[j];
      FoldLastWins(m, init, f);
    }
  }

  /** Lines 22-46: the dictionary after the loop and the `<time>` fallback, or None if the loop raised. */
  function ExtractMetadata(doc: Document): (r: Option<Metadata>)
    ensures r.None? <==> exists j :: 0 <= j < |doc.metas| && MissingContent(doc.metas[j])
    ensures r.Some? ==> r.value.title == TitleValue(doc.title)
  {
    match FoldMetas(Initial(doc), doc.metas)
    case None => None
    case Some(m) =>
      if m.time.None? && |doc.times| > 0 then Some(m.(time := Some(TimeTagValue(doc.times[0]))))
      else Some(m)
  }

  /** `time_tags[0].get('datetime', time_tags[0].text)`. */
  function TimeTagValue(t: Tag): string {
    if "datetime" in t.attrs then t.attrs["datetime"] else t.text
  }

  /**
    Description, keywords and location are the content of the last `<meta>`
    tag setting them, else the empty string.
  */
  lemma TextFieldLastWins(doc: Document, f: Field)
    requires f != Time
    requires forall j :: 0 <= j < |doc.metas| ==> !MissingContent(doc.metas[j])
    ensures ExtractMetadata(doc).Some?
    ensures forall i :: 0 <= i < |doc.metas| && Sets(f, doc.metas[i]) && (forall j :: i < j < |doc.metas| ==> !Sets(f, doc.metas[j])) ==>
      Value(f, ExtractMetadata(doc).value) == Some(doc.metas[i].attrs["content"])
    ensures (forall j :: 0 <= j < |doc.metas| ==> !Sets(f, doc.metas[j])) ==>
      Value(f, ExtractMetadata(doc).value) == Some("")
  {
    FoldLastWins(Initial(doc), doc.metas, f);
  }

  /** The time is the content of the last `<meta>` tag with a time property, when there is one. */
  lemma TimeFromLastMeta(doc: Document, i: nat)
    requires forall j :: 0 <= j < |doc.metas| ==> !MissingContent(doc.metas[j])
    requires i < |doc.metas| && Sets(Time, doc.metas[i])
    requires forall j :: i < j < |doc.metas| ==> !Sets(Time, doc.metas[j])
    ensures ExtractMetadata(doc).Some?
    ensures ExtractMetadata(doc).value.time == Some(doc.metas[i].attrs["content"])
  {
    FoldLastWins(Initial(doc), doc.metas, Time);
  }

  /**
    Only when no `<meta>` tag sets the time does the first `<time>` tag
    supply it: its `datetime` attribute, else its text; with no `<time>` tag
    the time stays None.
  */
  lemma TimeFallback(doc: Document)
    requires forall j :: 0 <= j < |doc.metas| ==> !MissingContent(doc.metas[j])
    requires forall j :: 0 <= j < |doc.metas| ==> !Sets(Time, doc.metas[j])
    ensures ExtractMetadata(doc).Some?
    ensures ExtractMetadata(doc).value.time ==
      if |doc.times| == 0 then None
      else if "datetime" in doc.times[0].attrs then Some(doc.times[0].attrs["datetime"])
      else Some(doc.times[0].text)
  {
    FoldLastWins(Initial(doc), doc.metas, Time);
  }

  /**
    Lines 48-53: a non-empty time is replaced by its ISO form, or by the
    current time `now` when `fromIsoFormat` rejects it.
  */
  function NormalizeTime(m: Metadata, fromIsoFormat: string -> Option<string>, now: string): (r: Metadata)
    ensures r.(time := m.time) == m
    ensures m.time.None? || m.time == Some("") ==> r == m
    ensures m.time.Some? && m.time.value != "" ==> r.time.Some? && r.time.value == fromIsoFormat(m.time.value).GetOr(now)
  {
    match m.time
    case Some(t) =>
      if t == "" then m
      else m.(time := Some(match fromIsoFormat(t) case Some(iso) => iso case None => now))
    case None => m
  }

  /**
    `fetch_metadata(url)`: `page` is None when opening, reading or UTF-8
    decoding the page raised; any exception makes the whole call None.
  */
  function FetchMetadata(page: Option<Document>, fromIsoFormat: string -> Option<string>, now: string): (r: Option<Metadata>)
    ensures page.None? ==> r.None?
    ensures page.Some? ==> (r.None? <==> exists j :: 0 <= j < |page.value.metas| && MissingContent(page.value.metas[j]))
    ensures r.Some? ==> r.value.title == TitleValue(page.value.title)
  {
    match page
    case None => None
    case Some(doc) =>
      match ExtractMetadata(doc)
      case None => None
      case Some(m) => Some(NormalizeTime(m, fromIsoFormat, now))
  }
}
