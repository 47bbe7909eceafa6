/** The knowledge card the services produce and the front end renders. */
module Cards {
  import opened Js

  datatype Point = Point(title: string, content: string)

  /** A card; `source` is absent on the cards the GLM normaliser builds. */
  datatype Card = Card(
    title: string,
    introduction: string,
    points: seq<Point>,
    summary: string,
    source: Option<string>)

  /** The card as a JSON object, the form in which it travels in a response body. */
  function PointToJson(p: Point): Json {
    JObj(map["title" := JStr(p.title), "content" := JStr(p.content)])
  }

  /** The points as a JSON array, in order. */
  function PointsToJson(ps: seq<Point>): (items: seq<Json>)
    ensures |items| == |ps| && forall k :: 0 <= k < |ps| ==> items[k] == PointToJson(ps[k])
  {
    seq(|ps|, i requires 0 <= i < |ps| => PointToJson(ps[i]))
  }

  function CardToJson(c: Card): (v: Json)
    ensures v.JObj? && "title" in v.fields && v.fields["title"] == JStr(c.title)
  {
    var base := map[
      "title" := JStr(c.title),
      "introduction" := JStr(c.introduction),
      "points" := JArr(PointsToJson(c.points)),
      "summary" := JStr(c.summary)];
    match c.source
    case None => JObj(base)
    case Some(s) => JObj(base["source" := JStr(s)])
  }

  /** Reading the four card fields back from the card's JSON object gives them as
      they are. */
  lemma CardJsonFields(c: Card)
    ensures var v := CardToJson(c);
      v.JObj?
      && Get(v, "title") == Some(JStr(c.title))
      && Get(v, "introduction") == Some(JStr(c.introduction))
      && Get(v, "points") == Some(JArr(PointsToJson(c.points)))
      && Get(v, "summary") == Some(JStr(c.summary))
  {
  }
}
