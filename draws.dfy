/** The values the crawler passes around: draw records, the parser's output
    with its backward cursor, the pieces of a result page the parsers read,
    and the per-product settings they use. */
module Draws {

  datatype Option<+T> = None | Some(value: T)

  /** The winning result of one draw: integers for the numeric products
      (Power 6/55, Mega 6/45, Lotto 5/35, Keno), three-character digit
      codes for Max 3D and Max 3D Pro. */
  datatype DrawResult =
    | Numbers(values: seq<int>)
    | Codes(codes: seq<string>)

  /** One line of a product's store: `date` (yyyy-mm-dd), `id`, `result`,
      `process_time`. */
  datatype DrawRecord = DrawRecord(date: string, id: string, result: DrawResult, processTime: string)

  /** What a parser returns: the record together with its `prev_draw_id`
      key, the id of the chronologically preceding draw (if the page links
      to one). The walker removes that key before storing the record. */
  datatype ParsedDraw = ParsedDraw(record: DrawRecord, prevDrawId: Option<string>)

  /** One `.day_so_ket_qua_v2` result container: the text of every `span`
      inside it and the text of every `span.bong_tron` inside it, in
      document order, before stripping. */
  datatype ResultDiv = ResultDiv(spans: seq<string>, balls: seq<string>)

  /** The parts of a result page's HTML that the parsers select:
      - `header`: text of the first `h5`, if there is one;
      - `resultDivs`: every `.day_so_ket_qua_v2` container, in document order;
      - `legacySpans`: span texts of the first `.day_so_ket_qua` container, if any;
      - `prevHref`: the `href` of the first `a.btn_chuyendulieu_left` link
        (the empty string when the link has no `href`), if there is a link. */
  datatype ResultPage = ResultPage(
    header: Option<string>,
    resultDivs: seq<ResultDiv>,
    legacySpans: Option<seq<string>>,
    prevHref: Option<string>)

  /** The product settings the crawler reads. `productType` is "power",
      "keno" or "max3d"; `numbersToPick` is how many numbers a numeric draw
      yields. */
  datatype LotteryConfig = LotteryConfig(
    name: string,
    numbersToPick: nat,
    url: string,
    smsCode: string,
    productType: string)
}
