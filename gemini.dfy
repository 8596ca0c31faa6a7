/** The pure parts of the backend wrapper: the "sources" footer appended to a
    restaurant search answer, and the `data:` URL of a generated dish image.
    The network calls themselves are represented by their outcomes. */
module Gemini {
  import opened Basics
  import opened JsStrings

  datatype Web = Web(uri: Option<string>, title: Option<string>)

  datatype GroundingChunk = GroundingChunk(web: Option<Web>)

  /** What a grounded search call resolves with: the model's text, if any,
      and the grounding chunks of the first candidate, if any. */
  datatype SearchResponse = SearchResponse(text: Option<string>, groundingChunks: Option<seq<GroundingChunk>>)

  datatype GeneratedImage = GeneratedImage(imageBytes: string)

  /** `response.text ?? ''` */
  function TextOrEmpty(text: Option<string>): string
  {
    match text
    case Some(t) => t
    case None => ""
  }

  /** A string field that JavaScript treats as true: present and non-empty. */
  predicate Truthy(s: Option<string>)
  {
    s.Some? && s.value != ""
  }

  /** The chunk has a web source with a (non-empty) URI and title. */
  predicate Citable(c: GroundingChunk)
  {
    c.web.Some? && Truthy(c.web.value.uri) && Truthy(c.web.value.title)
  }

  /** A citable chunk as a markdown link `[title](uri)`. */
  function SourceLink(c: GroundingChunk): string
    requires Citable(c)
  {
    "[" + c.web.value.title.value + "](" + c.web.value.uri.value + ")"
  }

  /** The `map`/`filter`/`map` chain: the links of the citable chunks, in order. */
  function Sources(chunks: seq<GroundingChunk>): (r: seq<string>)
    ensures |r| <= |chunks|
  {
    if chunks == [] then []
    else (if Citable(chunks[0]) then [SourceLink(chunks[0])] else []) + Sources(chunks[1..])
  }

  /** Every link comes from a citable chunk, and there is none exactly when
      no chunk is citable. */
  lemma {:induction false} SourcesSpec(chunks: seq<GroundingChunk>)
    ensures forall s :: s in Sources(chunks) ==> exists c :: c in chunks && Citable(c) && s == SourceLink(c)
    ensures Sources(chunks) == [] <==> forall i :: 0 <= i < |chunks| ==> !Citable(chunks[i])
  {
    if chunks != [] {
      SourcesSpec(chunks[1..]);
      assert chunks == [chunks[0]] + chunks[1..];
      assert forall i :: 1 <= i < |chunks| ==> chunks[i] == chunks[1..][i - 1];
    }
  }

  /** The links of a list of chunks are the links of its parts, in order:
      a chunk that is not citable contributes nothing, a citable one exactly its link. */
  lemma {:induction false} SourcesAppend(a: seq<GroundingChunk>, b: seq<GroundingChunk>)
    ensures Sources(a + b) == Sources(a) + Sources(b)
  {
    if a == [] {
      assert a + b == b;
    } else {
      var ab := a + b;
      assert ab[0] == a[0] && ab[1..] == a[1..] + b;
      SourcesAppend(a[1..], b);
      var head := if Citable(a[0]) then [SourceLink(a[0])] else [];
      assert Sources(ab) == head + Sources(a[1..] + b);
      assert Sources(a) == head + Sources(a[1..]);
    }
  }

  /** Adding `x` to a JavaScript `Set` kept as its insertion order. */
  function SetAdd(seen: seq<string>, x: string): seq<string>
  {
    if x in seen then seen else seen + [x]
  }

  /** `new Set(xs)` started from `acc`: the elements are added one by one, from the front. */
  function SetAddAll(acc: seq<string>, xs: seq<string>): seq<string>
    decreases |xs|
  {
    if xs == [] then acc else SetAddAll(SetAdd(acc, xs[0]), xs[1..])
  }

  /** `[...new Set(xs)]` */
  function Unique(xs: seq<string>): seq<string>
  {
    SetAddAll([], xs)
  }

  lemma {:induction false} SetAddAllSnoc(acc: seq<string>, xs: seq<string>, x: string)
    ensures SetAddAll(acc, xs + [x]) == SetAdd(SetAddAll(acc, xs), x)
    decreases |xs|
  {
    if xs == [] {
      assert [] + [x] == [x];
      assert [x][1..] == [];
    } else {
      SetAddAllSnoc(SetAdd(acc, xs[0]), xs[1..], x);
      assert (xs + [x])[1..] == xs[1..] + [x];
    }
  }

  lemma {:induction false} SetAddAllMembers(acc: seq<string>, xs: seq<string>)
    ensures forall y :: y in SetAddAll(acc, xs) <==> y in acc || y in xs
    decreases |xs|
  {
    if xs != [] {
      SetAddAllMembers(SetAdd(acc, xs[0]), xs[1..]);
      assert xs == [xs[0]] + xs[1..];
    }
  }

  /** Deduplication keeps the first occurrence of each link: appending a link
      already seen changes nothing, appending a new one puts it last. */
  lemma UniqueSnoc(xs: seq<string>, x: string)
    ensures Unique(xs + [x]) == if x in xs then Unique(xs) else Unique(xs) + [x]
  {
    SetAddAllSnoc([], xs, x);
    SetAddAllMembers([], xs);
  }

  /** The deduplicated links: no repeats, the same links, their original order. */
  lemma {:induction false} UniqueProperties(xs: seq<string>)
    ensures NoDuplicates(Unique(xs))
    ensures forall y :: y in Unique(xs) <==> y in xs
    ensures IsSubsequence(Unique(xs), xs)
    decreases |xs|
  {
    SetAddAllMembers([], xs);
    if xs == [] {
    } else {
      var init := xs[..|xs| - 1];
      var x := xs[|xs| - 1];
      assert xs == init + [x];
      UniqueProperties(init);
      UniqueSnoc(init, x);
      if x in init {
        SubsequenceSnoc(Unique(init), init, x);
      } else {
        SubsequenceAppendBoth(Unique(init), init, x);
      }
    }
  }

  /** Links that are already distinct are kept as they are. */
  lemma {:induction false} UniqueOfDistinct(xs: seq<string>)
    requires NoDuplicates(xs)
    ensures Unique(xs) == xs
    decreases |xs|
  {
    if xs != [] {
      var init := xs[..|xs| - 1];
      var x := xs[|xs| - 1];
      assert xs == init + [x];
      UniqueOfDistinct(init);
      UniqueSnoc(init, x);
    }
  }

  const SourcesHeading := "\n\n**Izvori:**\n"

  /** The string `findRestaurants` resolves with: the model's text, followed
      by the heading and the distinct source links, one per line, when there
      is at least one. */
  function FindRestaurantsText(resp: SearchResponse): string
  {
    var textResponse := TextOrEmpty(resp.text);
    match resp.groundingChunks
    case Some(chunks) =>
      if |chunks| > 0 then
        var uniqueSources := Unique(Sources(chunks));
        if |uniqueSources| > 0 then textResponse + SourcesHeading + Join(uniqueSources, "\n")
        else textResponse
      else textResponse
    case None => textResponse
  }

  /** The footer is appended exactly when some chunk is citable; otherwise
      the answer is the model's text alone (`''` when it has none). */
  lemma FooterIffCitable(resp: SearchResponse)
    ensures var base := TextOrEmpty(resp.text);
            var chunks := if resp.groundingChunks.Some? then resp.groundingChunks.value else [];
            && ((exists i :: 0 <= i < |chunks| && Citable(chunks[i])) ==>
                  FindRestaurantsText(resp) == base + SourcesHeading + Join(Unique(Sources(chunks)), "\n"))
            && ((forall i :: 0 <= i < |chunks| ==> !Citable(chunks[i])) ==>
                  FindRestaurantsText(resp) == base)
  {
    if resp.groundingChunks.Some? {
      var chunks := resp.groundingChunks.value;
      SourcesSpec(chunks);
      UniqueProperties(Sources(chunks));
      if Sources(chunks) != [] {
        assert Sources(chunks)[0] in Unique(Sources(chunks));
      }
    }
  }

  /** What the grounded search call turns into for the caller. */
  function FindRestaurantsReply(r: Reply<SearchResponse>): Reply<string>
  {
    match r
    case Success(resp) => Success(FindRestaurantsText(resp))
    case Failure => Failure
  }

  /** What a plain text call (`generateCulinaryAnalysis`, `continueChat`,
      `analyzeImage`) turns into for the caller. */
  function TextReply(r: Reply<Option<string>>): Reply<string>
  {
    match r
    case Success(t) => Success(TextOrEmpty(t))
    case Failure => Failure
  }

  /** A call's promise resolves exactly when the call succeeds, with the
      model's text (`''` when it has none) or the footed search answer. */
  lemma ReplyOutcome(r: Reply<Option<string>>, s: Reply<SearchResponse>)
    ensures TextReply(r).Success? <==> r.Success?
    ensures r == Success(None) ==> TextReply(r) == Success("")
    ensures forall t :: r == Success(Some(t)) ==> TextReply(r) == Success(t)
    ensures FindRestaurantsReply(s).Success? <==> s.Success?
    ensures s.Success? ==> FindRestaurantsReply(s) == Success(FindRestaurantsText(s.value))
  {
  }

  const JpegDataUrlPrefix := "data:image/jpeg;base64,"

  function JpegDataUrl(base64: string): string
  {
    JpegDataUrlPrefix + base64
  }

  /** The inverse of `JpegDataUrl`: the payload of a JPEG data URL. */
  function ImageBytesOf(url: string): Option<string>
  {
    if |url| >= |JpegDataUrlPrefix| && url[..|JpegDataUrlPrefix|] == JpegDataUrlPrefix
    then Some(url[|JpegDataUrlPrefix|..])
    else None
  }

  lemma DataUrlRoundTrip(base64: string, url: string)
    ensures ImageBytesOf(JpegDataUrl(base64)) == Some(base64)
    ensures ImageBytesOf(url) == Some(base64) ==> JpegDataUrl(base64) == url
  {
    assert JpegDataUrl(base64)[..|JpegDataUrlPrefix|] == JpegDataUrlPrefix;
    if ImageBytesOf(url) == Some(base64) {
      assert url == url[..|JpegDataUrlPrefix|] + url[|JpegDataUrlPrefix|..];
    }
  }

  /** `generateDishImage` after the call: the first image as a data URL, or
      a rejection when no image came back. */
  function DishImageUrl(generatedImages: Option<seq<GeneratedImage>>): (r: Reply<string>)
    ensures r.Success? <==> generatedImages.Some? && |generatedImages.value| > 0
    ensures r.Success? ==> ImageBytesOf(r.value) == Some(generatedImages.value[0].imageBytes)
  {
    match generatedImages
    case Some(images) =>
      if |images| > 0 then
        DataUrlRoundTrip(images[0].imageBytes, "");
        Success(JpegDataUrl(images[0].imageBytes))
      else Failure
    case None => Failure
  }

  /** The outcome of `generateDishImage` as its caller sees it: a rejected
      call and an empty image list both reject. */
  function GenerateDishImageReply(r: Reply<Option<seq<GeneratedImage>>>): (url: Reply<string>)
    ensures url.Success? <==> r.Success? && r.value.Some? && |r.value.value| > 0
  {
    match r
    case Success(images) => DishImageUrl(images)
    case Failure => Failure
  }
}
