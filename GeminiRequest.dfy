/** The request schema: a request holds contents, a content holds parts, and a part
    holds an optional text and optional inline data. Also the rule by which each
    record is written on the wire, and the reading that inverts it. */
module RequestModel {
  import opened Wrappers
  import opened Wire

  /** An image sent inline: its MIME type and its bytes in base64. */
  datatype InlineData = InlineData(mimeType: string, base64Data: string)

  /** One part of a content item; each field is independently optional. */
  datatype Part = Part(text: Option<string>, inlineData: Option<InlineData>)

  /** One content item: an ordered sequence of parts. */
  datatype Content = Content(parts: seq<Part>)

  /** A request: an ordered sequence of content items. */
  datatype GeminiRequest = GeminiRequest(contents: seq<Content>)

  /** The values the parameterless constructors produce. */
  const NewInlineData: InlineData := InlineData("image/png", "")
  const NewPart: Part := Part(None, None)
  const NewContent: Content := Content([])
  const NewRequest: GeminiRequest := GeminiRequest([])

  // Writing.

  /** Inline data always writes both of its members. */
  function EncodeInlineData(d: InlineData): (j: Json)
    ensures j.JObject? && |j.fields| == 2
    ensures Lookup(j.fields, "mime_type") == Some(JString(d.mimeType))
    ensures Lookup(j.fields, "data") == Some(JString(d.base64Data))
  {
    JObject([Field("mime_type", JString(d.mimeType)), Field("data", JString(d.base64Data))])
  }

  /** A part writes `text` exactly when it has a text and `inline_data` exactly when it has
      inline data; an absent field is left out, never written as null. */
  function EncodePart(p: Part): (j: Json)
    ensures j.JObject?
    ensures HasKey(j.fields, "text") <==> p.text.Some?
    ensures HasKey(j.fields, "inline_data") <==> p.inlineData.Some?
    ensures forall i :: 0 <= i < |j.fields| ==>
              j.fields[i].key in {"text", "inline_data"} && j.fields[i].value != JNull
  {
    var text := if p.text.Some? then [Field("text", JString(p.text.value))] else [];
    var data := if p.inlineData.Some? then [Field("inline_data", EncodeInlineData(p.inlineData.value))] else [];
    var fields := text + data;
    assert p.text.Some? ==> fields[0].key == "text";
    assert p.inlineData.Some? ==> fields[|fields| - 1].key == "inline_data";
    JObject(fields)
  }

  /** The parts, written one by one in order. */
  function EncodeParts(parts: seq<Part>): (items: seq<Json>)
    ensures |items| == |parts|
    ensures forall i :: 0 <= i < |parts| ==> items[i] == EncodePart(parts[i])
  {
    if parts == [] then [] else [EncodePart(parts[0])] + EncodeParts(parts[1..])
  }

  /** A content item writes one member, `parts`, holding its parts in order. */
  function EncodeContent(c: Content): (j: Json)
    ensures j.JObject? && |j.fields| == 1
    ensures Lookup(j.fields, "parts") == Some(JArray(EncodeParts(c.parts)))
  {
    JObject([Field("parts", JArray(EncodeParts(c.parts)))])
  }

  /** The content items, written one by one in order. */
  function EncodeContents(contents: seq<Content>): (items: seq<Json>)
    ensures |items| == |contents|
    ensures forall i :: 0 <= i < |contents| ==> items[i] == EncodeContent(contents[i])
  {
    if contents == [] then [] else [EncodeContent(contents[0])] + EncodeContents(contents[1..])
  }

  /** The request body as it is posted: one member, `contents`, holding the content
      items in order. */
  function EncodeRequest(r: GeminiRequest): (j: Json)
    ensures j.JObject? && |j.fields| == 1
    ensures Lookup(j.fields, "contents") == Some(JArray(EncodeContents(r.contents)))
  {
    JObject([Field("contents", JArray(EncodeContents(r.contents)))])
  }

  // Reading. A missing member takes the constructor's default, an explicit null on a
  // nullable member reads as absent, and a member of the wrong shape fails (None).

  /** A nullable string member: the outer Option is success, the inner one the value. */
  function DecodeNullableString(v: Option<Json>): Option<Option<string>> {
    match v
    case None => Some(None)
    case Some(JNull) => Some(None)
    case Some(JString(s)) => Some(Some(s))
    case Some(_) => None
  }

  /** A non-nullable string member with a default value. */
  function DecodeString(v: Option<Json>, default: string): Option<string> {
    match v
    case None => Some(default)
    case Some(JString(s)) => Some(s)
    case Some(_) => None
  }

  function DecodeInlineData(j: Json): Option<InlineData> {
    match j
    case JObject(fields) =>
      var mime := DecodeString(Lookup(fields, "mime_type"), NewInlineData.mimeType);
      var data := DecodeString(Lookup(fields, "data"), NewInlineData.base64Data);
      if mime.Some? && data.Some? then Some(InlineData(mime.value, data.value)) else None
    case _ => None
  }

  /** A nullable inline-data member: the outer Option is success, the inner one the value. */
  function DecodeNullableInlineData(v: Option<Json>): Option<Option<InlineData>> {
    match v
    case None => Some(None)
    case Some(JNull) => Some(None)
    case Some(j) =>
      var d := DecodeInlineData(j);
      if d.Some? then Some(Some(d.value)) else None
  }

  function DecodePart(j: Json): Option<Part> {
    match j
    case JObject(fields) =>
      var text := DecodeNullableString(Lookup(fields, "text"));
      var data := DecodeNullableInlineData(Lookup(fields, "inline_data"));
      if text.Some? && data.Some? then Some(Part(text.value, data.value)) else None
    case _ => None
  }

  function DecodeParts(items: seq<Json>): Option<seq<Part>> {
    if items == [] then Some([])
    else
      var head := DecodePart(items[0]);
      var tail := DecodeParts(items[1..]);
      if head.Some? && tail.Some? then Some([head.value] + tail.value) else None
  }

  function DecodeContent(j: Json): Option<Content> {
    match j
    case JObject(fields) =>
      (match Lookup(fields, "parts")
       case None => Some(NewContent)
       case Some(JArray(items)) =>
         var parts := DecodeParts(items);
         if parts.Some? then Some(Content(parts.value)) else None
       case Some(_) => None)
    case _ => None
  }

  function DecodeContents(items: seq<Json>): Option<seq<Content>> {
    if items == [] then Some([])
    else
      var head := DecodeContent(items[0]);
      var tail := DecodeContents(items[1..]);
      if head.Some? && tail.Some? then Some([head.value] + tail.value) else None
  }

  /** Reads a request body back into the schema. */
  function DecodeRequest(j: Json): Option<GeminiRequest> {
    match j
    case JObject(fields) =>
      (match Lookup(fields, "contents")
       case None => Some(NewRequest)
       case Some(JArray(items)) =>
         var contents := DecodeContents(items);
         if contents.Some? then Some(GeminiRequest(contents.value)) else None
       case Some(_) => None)
    case _ => None
  }

  // Round trip: reading what was written gives back the same request, with every
  // content item and every part in its original order.

  lemma PartRoundTrip(p: Part)
    ensures DecodePart(EncodePart(p)) == Some(p)
  {
    match p.inlineData
    case None =>
    case Some(d) =>
      assert DecodeInlineData(EncodeInlineData(d)) == Some(d);
  }

  lemma {:induction false} PartsRoundTrip(parts: seq<Part>)
    ensures DecodeParts(EncodeParts(parts)) == Some(parts)
  {
    if parts != [] {
      var items := EncodeParts(parts);
      assert items[1..] == EncodeParts(parts[1..]);
      PartRoundTrip(parts[0]);
      PartsRoundTrip(parts[1..]);
      assert [parts[0]] + parts[1..] == parts;
    }
  }

  lemma ContentRoundTrip(c: Content)
    ensures DecodeContent(EncodeContent(c)) == Some(c)
  {
    PartsRoundTrip(c.parts);
  }

  lemma {:induction false} ContentsRoundTrip(contents: seq<Content>)
    ensures DecodeContents(EncodeContents(contents)) == Some(contents)
  {
    if contents != [] {
      var items := EncodeContents(contents);
      assert items[1..] == EncodeContents(contents[1..]);
      ContentRoundTrip(contents[0]);
      ContentsRoundTrip(contents[1..]);
      assert [contents[0]] + contents[1..] == contents;
    }
  }

  lemma RequestRoundTrip(r: GeminiRequest)
    ensures DecodeRequest(EncodeRequest(r)) == Some(r)
  {
    ContentsRoundTrip(r.contents);
  }

  /** Fresh records: empty contents, empty parts, a part with no member on the wire,
      and inline data defaulting to `image/png` with empty data. A body that omits every
      member reads back as these defaults. */
  lemma Defaults()
    ensures NewRequest.contents == [] && NewContent.parts == []
    ensures NewPart.text.None? && NewPart.inlineData.None?
    ensures EncodePart(NewPart) == JObject([])
    ensures NewInlineData.mimeType == "image/png" && NewInlineData.base64Data == ""
    ensures DecodeRequest(JObject([])) == Some(NewRequest)
    ensures DecodeContent(JObject([])) == Some(NewContent)
    ensures DecodeInlineData(JObject([])) == Some(NewInlineData)
  {
  }
}
