/** `ImportExportActions`: the plain (unredacted) export document and its
    file name, and the import path that accepts three document shapes. The
    file dialog, `Blob` download and `JSON.parse` are host functions. */
module ImportExport {
  import opened Wrappers
  import opened Json
  import Api
  import Text

  /** Which collections a parsed import document holds, or None when reading
      its fields throws (the document is `null`). The precedence: a
      `collections` array field, then the document itself when it is an
      array, then the document as a single collection when its `name` and
      `requests` are truthy, and otherwise nothing. The entries are not
      checked further. */
  function Normalise(j: Json): (r: Option<seq<Json>>)
    ensures r.None? <==> j.JNull?
    ensures j.JObject? && "collections" in j.fields && j.fields["collections"].JArray? ==>
      r == Some(j.fields["collections"].items)
    ensures j.JArray? ==> r == Some(j.items)
    ensures j.JObject? && !("collections" in j.fields && j.fields["collections"].JArray?) ==>
      r == if "name" in j.fields && "requests" in j.fields && Truthy(j.fields["name"]) && Truthy(j.fields["requests"])
           then Some([j]) else Some([])
    ensures !j.JNull? && !j.JArray? && !j.JObject? ==> r == Some([])
  {
    if j.JNull? then None
    else if Get(j, "collections").JArray? then Some(Get(j, "collections").items)
    else if j.JArray? then Some(j.items)
    else if Truthy(Get(j, "name")) && Truthy(Get(j, "requests")) then Some([j])
    else Some([])
  }

  /** The encrypted wrapper of a secure export has none of the fields the
      plain import reads, so it yields no collections. */
  lemma EncryptedWrapperYieldsNothing(encrypted: Json, data: Json, version: Json)
    ensures Normalise(JObject(map["encrypted" := encrypted, "data" := data, "version" := version])) == Some([])
  {
    var j := JObject(map["encrypted" := encrypted, "data" := data, "version" := version]);
    assert "collections" !in j.fields && "name" !in j.fields;
  }

  datatype ImportOutcome =
    | NoFile
    | Imported(collections: seq<Json>)
    | NothingFound
    | Unreadable

  /** `handleFileImport`: `onImport` is called (an `Imported` outcome) only
      with a non-empty list; a parse failure or a throwing field read ends in
      the format alert, an empty list in the "no valid collections" alert. */
  function HandleFileImport(file: Option<string>, parse: string -> Option<Json>): (r: ImportOutcome)
    ensures r == NoFile <==> file.None?
    ensures r == Unreadable <==> file.Some? && (parse(file.value).None? || parse(file.value).value.JNull?)
    ensures r.Imported? <==> file.Some? && parse(file.value).Some? && !parse(file.value).value.JNull?
                             && |Normalise(parse(file.value).value).value| > 0
    ensures r.Imported? ==> |r.collections| > 0 && Normalise(parse(file.value).value) == Some(r.collections)
  {
    match file
    case None => NoFile
    case Some(text) =>
      match parse(text)
      case None => Unreadable
      case Some(j) =>
        match Normalise(j)
        case None => Unreadable
        case Some(cs) => if |cs| > 0 then Imported(cs) else NothingFound
  }

  const FormatVersion := "1.0"

  /** The plain export document: the collections as they are, credentials
      included. */
  datatype Document = Document(version: string, exportedAt: string, collections: seq<Api.Collection>)

  datatype Download = Download(document: Document, filename: string)

  /** The file-name date: the ISO time with `:` and `.` turned into `-`,
      cut before the first `T`. */
  function FileTimestamp(iso: string): (ts: string)
    ensures ':' !in ts && '.' !in ts && 'T' !in ts
    ensures |ts| <= |iso|
    ensures forall i :: 0 <= i < |ts| ==> ts[i] == (if iso[i] == ':' || iso[i] == '.' then '-' else iso[i])
    ensures |ts| < |iso| ==> iso[|ts|] == 'T'
  {
    var replaced := Text.ReplaceEach(iso, ':', '.', '-');
    var ts := Text.BeforeFirst(replaced, 'T');
    assert forall i :: 0 <= i < |ts| ==> ts[i] == replaced[i];
    ts
  }

  /** For a time written `<date>T<time>` with no `:`, `.` or `T` in the
      date part, the file-name date is that date part. */
  lemma FileTimestampIsDate(iso: string, k: nat)
    requires k < |iso| && iso[k] == 'T'
    requires forall i :: 0 <= i < k ==> iso[i] != ':' && iso[i] != '.' && iso[i] != 'T'
    ensures FileTimestamp(iso) == iso[..k]
  {
  }

  /** `exportCollections(selected?)`: the selection when one is given (even
      an empty one), else every collection; nothing at all for an empty
      list. `exportedAt` and `clock` are the two `new Date()` readings. */
  function ExportCollections(all: seq<Api.Collection>, selected: Option<seq<Api.Collection>>,
                             exportedAt: string, clock: string): (r: Option<Download>)
    ensures var chosen := if selected.Some? then selected.value else all;
      && (r.None? <==> |chosen| == 0)
      && (r.Some? ==> r.value.document == Document(FormatVersion, exportedAt, chosen))
    ensures r.Some? && selected.Some? ==>
      r.value.filename == selected.value[0].name + "-collection-" + FileTimestamp(clock) + ".json"
    ensures r.Some? && selected.None? ==> r.value.filename == "all-collections-" + FileTimestamp(clock) + ".json"
  {
    var chosen := if selected.Some? then selected.value else all;
    if |chosen| == 0 then None
    else
      var ts := FileTimestamp(clock);
      var name := if selected.Some? then selected.value[0].name + "-collection-" + ts + ".json"
                  else "all-collections-" + ts + ".json";
      Some(Download(Document(FormatVersion, exportedAt, chosen), name))
  }

  /** `createSingleCollectionExporter(collection)()`. */
  function ExportSingle(c: Api.Collection, exportedAt: string, clock: string): (r: Download)
    ensures r.document.collections == [c]
  {
    Download(Document(FormatVersion, exportedAt, [c]), c.name + "-collection-" + FileTimestamp(clock) + ".json")
  }

  /** The single-collection exporter is the general one given a one-element
      selection. */
  lemma SingleIsSelectionOfOne(all: seq<Api.Collection>, c: Api.Collection, exportedAt: string, clock: string)
    ensures ExportCollections(all, Some([c]), exportedAt, clock) == Some(ExportSingle(c, exportedAt, clock))
  {
  }

  /** The JSON form of a document, given the JSON form of a collection. */
  function Written(d: Document, encode: Api.Collection -> Json): (j: Json)
    ensures j.JObject? && "collections" in j.fields
  {
    JObject(map[
      "version" := JString(d.version),
      "exportedAt" := JString(d.exportedAt),
      "collections" := JArray(seq(|d.collections|, i requires 0 <= i < |d.collections| => encode(d.collections[i])))])
  }

  /** Exporting and importing the file: when parsing reads back what was
      written, the import hands over exactly the exported collections, in
      order. */
  lemma ExportThenImport(all: seq<Api.Collection>, selected: Option<seq<Api.Collection>>,
                         exportedAt: string, clock: string,
                         encode: Api.Collection -> Json, text: string, parse: string -> Option<Json>)
    requires ExportCollections(all, selected, exportedAt, clock).Some?
    requires parse(text) == Some(Written(ExportCollections(all, selected, exportedAt, clock).value.document, encode))
    ensures
      var cs := ExportCollections(all, selected, exportedAt, clock).value.document.collections;
      HandleFileImport(Some(text), parse) == Imported(seq(|cs|, i requires 0 <= i < |cs| => encode(cs[i])))
  {
  }
}
