/** Whole range requests: the edge cuts whatever get_or_fetch returns, and drops its status
    (src/application/cache_service.py, src/presentation/origin/routes.py). */
module RangeRequests {
  import opened Text
  import opened Entities
  import opened ByteRanges
  import opened ConditionalFetch
  import opened EdgeProtocol

  /** An answer to a request with a Range header: an error page, or what the range resolvers say. */
  datatype RangeAnswer =
    | Page(body: Bytes, status: int)
    | Cut(answer: Answer)

  /** serve_file with a Range header and no If-None-Match. */
  function OriginAnswer(asset: Asset, parsed: Parsed): RangeAnswer
    requires WellParsed(parsed)
  {
    match asset
    case Outside => Page(Ascii("Forbidden"), 403)
    case Missing => Page(Ascii("Not Found"), 404)
    case File(content, _) => Cut(OriginRange(content, parsed))
  }

  /** handle_range_request, given what get_or_fetch returns: only its content is used. */
  function EdgeAnswer(reply: Reply, parsed: Parsed): RangeAnswer
    requires WellParsed(parsed) && (parsed.Ok? ==> parsed.value != [])
  {
    Cut(EdgeRange(reply.content, parsed))
  }

  /** Suppose that get_or_fetch returns what an unconditional GET returns at this moment, as it does whenever it
      completes a fetch. For every header the edge then answers as the origin does if and only if the file exists,
      the origin answers 206, and the first range has no overlong end. */
  lemma EdgeAnswersAsOriginIff(digest: Digest, assets: Assets, path: string, reply: Reply, header: string)
    requires SameBody(reply, Serve(digest, assets, path, None))
    ensures WellParsed(FromHeader(header)) && (FromHeader(header).Ok? ==> FromHeader(header).value != [])
    ensures var parsed := FromHeader(header);
      EdgeAnswer(reply, parsed) == OriginAnswer(assets(path), parsed) <==>
        && assets(path).File?
        && OriginRange(assets(path).content, parsed).PartialContent?
        && !OverlongEnd(parsed.value[0], |assets(path).content|)
  {
    EdgeAgreesWithOrigin(reply.content, header);
    hide FromHeader, EdgeRange, OriginRange, OverlongEnd, Truthful;
  }

  /** Whatever the status, a header that parses is answered 206 with the bytes asked for, even of an error page. */
  lemma StatusIsDropped(reply: Reply, header: string)
    ensures WellParsed(FromHeader(header)) && (FromHeader(header).Ok? ==> FromHeader(header).value != [])
    ensures FromHeader(header).Ok? ==> EdgeAnswer(reply, FromHeader(header)).answer.PartialContent?
    ensures FromHeader(header).Ok? ==>
      (EdgeAnswer(reply, FromHeader(header)).answer.body != [] <==>
        Satisfiable(FromHeader(header).value[0], |reply.content|))
  {
    ParsedWellFormed(header);
    CutIsPartial(reply.content, FromHeader(header));
  }

  lemma CutIsPartial(content: Bytes, parsed: Parsed)
    requires WellParsed(parsed) && (parsed.Ok? ==> parsed.value != [])
    ensures parsed.Ok? ==> EdgeRange(content, parsed).PartialContent?
    ensures parsed.Ok? ==> (EdgeRange(content, parsed).body != [] <==> Satisfiable(parsed.value[0], |content|))
  {
    if parsed.Ok? {
      assert parsed.value[0] in parsed.value;
      OriginTruthful(content, parsed.value[0]);
      CutsAgree(content, parsed.value[0]);
    }
  }

  /** A file that is missing is 404 at the origin and 206 at the edge, with a cut of the error page. */
  lemma MissingIsPartial(reply: Reply)
    requires reply.content == Ascii("Not Found") && reply.status == 404
    ensures FromHeader("bytes=0-") == Ok([ByteRange(Some(0), None)])
    ensures OriginAnswer(Missing, FromHeader("bytes=0-")) == Page(Ascii("Not Found"), 404)
    ensures EdgeAnswer(reply, FromHeader("bytes=0-")) == Cut(PartialContent(Ascii("Not Found"), "bytes 0-8/9"))
  {
    EdgeMisnames(0);
    WholeOfNine(reply.content);
    hide FromHeader, EdgeCut;
  }

  lemma WholeOfNine(content: Bytes)
    requires |content| == 9
    ensures EdgeCut(content, ByteRange(Some(0), None)) == PartialContent(content, "bytes 0-8/9")
  {
    PrintDigits();
    TakeAll(content);
    hide PrintNat;
    assert RangeLine(0, 8, 9) == "bytes 0-8/9";
  }
}
