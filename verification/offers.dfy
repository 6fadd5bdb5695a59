/** `crear_oferta.php`: the row `crearOfertaDesdeReserva` writes to the external `ofertas` table. The
    external store itself is a port: the model is told whether its insert succeeded and with which
    id. */
module Offers {
  import opened Wrappers
  import opened Text
  import opened Store

  /** The values the `articulo` enum column accepts, in the order they are tried. */
  const Articles: seq<string> :=
    ["Rosa", "Clavel", "Alstromelia", "Paniculata", "Limonium",
     "Hortensia", "Uniflor", "Crisantemo", "Rosa Ramificada", "Rosa Teñida"]

  const DefaultArticle: string := "Rosa"

  /** `ubicacion` of every new offer. */
  const InTransit: string := "Tránsito"

  /** `$datos`: each entry is `None` when it is not set (or `null`). */
  datatype OfferRequest = OfferRequest(
    kind: Option<string>,
    name: Option<string>,
    quantity: Option<int>,
    crop: Option<string>,
    flight: Option<string>,
    date: Option<string>,
    shipDate: Option<string>,
    client: Option<string>)

  /** A row of `ofertas`. */
  datatype Offer = Offer(
    article: string,
    variety: string,
    crop: Option<string>,
    date: Option<string>,
    shipDate: Option<string>,
    flight: Option<string>,
    client: Option<string>,
    location: string,
    boxes: int,
    available: int,
    reserved: int,
    outlet: int,
    prepared: int)

  // ----- the article -----

  /** One of the strings contains the other, ignoring case (`stripos` in either direction). */
  predicate Related(kind: string, article: string) {
    OccursIgnoringCase(kind, article) || OccursIgnoringCase(article, kind)
  }

  /** The enum value for a trimmed product type: the type itself when it is a value, else the first
      value related to it, else `Rosa`. */
  function Article(kind: string): (r: string)
    ensures r in Articles
  {
    Pick(Articles, kind)
  }

  /** The choice among `values`, in the order they are tried. */
  function Pick(values: seq<string>, kind: string): (r: string)
    requires DefaultArticle in values
    ensures r in values
  {
    if kind in values then kind
    else
      match FirstMatch(values, (v: string) => Related(kind, v))
      case Some(i) => values[i - 1]
      case None => DefaultArticle
  }

  /** Which value a type maps to: itself when it is one; otherwise the first value it is related to,
      if any; otherwise the default. */
  lemma PickChoice(values: seq<string>, kind: string)
    requires DefaultArticle in values
    ensures kind in values ==> Pick(values, kind) == kind
    ensures kind !in values ==>
      if exists j :: 0 <= j < |values| && Related(kind, values[j]) then
        exists j :: 0 <= j < |values| && Related(kind, values[j]) && Pick(values, kind) == values[j]
          && forall i :: 0 <= i < j ==> !Related(kind, values[i])
      else Pick(values, kind) == DefaultArticle
  {
    if kind !in values {
      var m := FirstMatch(values, (v: string) => Related(kind, v));
      if m.Some? {
        var j := m.value - 1;
        assert Related(kind, values[j]) && Pick(values, kind) == values[j];
      }
    }
  }

  /** The same choice among the column's values. */
  lemma ArticleChoice(kind: string)
    ensures kind in Articles ==> Article(kind) == kind
    ensures kind !in Articles ==>
      if exists j :: 0 <= j < |Articles| && Related(kind, Articles[j]) then
        exists j :: 0 <= j < |Articles| && Related(kind, Articles[j]) && Article(kind) == Articles[j]
          && forall i :: 0 <= i < j ==> !Related(kind, Articles[i])
      else Article(kind) == DefaultArticle
  {
    PickChoice(Articles, kind);
  }

  /** An empty type is contained in every value, so it maps to the first one. */
  lemma EmptyTypeIsRosa()
    ensures Article("") == "Rosa"
  {
    assert Related("", Articles[0]) by {
      assert "" <= Lower(Articles[0]);
    }
  }

  // ----- the row -----

  /** `$x ?: null`: a value PHP reads as false becomes `null`. */
  function NonFalsy(x: Option<string>): Option<string> {
    match x
    case Some(v) => if Falsy(v) then None else Some(v)
    case None => None
  }

  function TrimOption(x: Option<string>): Option<string> {
    match x
    case Some(v) => Some(Trim(v))
    case None => None
  }

  /** The row to insert, or the refusal when the type or the name is missing. */
  function NewOffer(d: OfferRequest): Result<Offer, Error> {
    if d.kind.None? || d.name.None? then Err(MissingOfferData)
    else
      var boxes := d.quantity.GetOr(0);
      Ok(Offer(Article(Trim(d.kind.value)), Trim(d.name.value), TrimOption(d.crop), NonFalsy(d.date),
               NonFalsy(d.shipDate), TrimOption(d.flight), TrimOption(d.client), InTransit,
               boxes, boxes, 0, 0, 0))
  }

  /** `crearOfertaDesdeReserva`: the row and the id the external store gave it, when its insert
      (`inserted`) succeeded. */
  function CreateOffer(d: OfferRequest, inserted: Option<int>): Result<(Offer, int), Error> {
    match NewOffer(d)
    case Err(e) => Err(e)
    case Ok(o) =>
      match inserted
      case None => Err(OfferStoreFailed)
      case Some(id) => Ok((o, id))
  }

  /** A new offer is refused exactly when the type or the name is missing or the external insert
      failed; otherwise it is in transit with all its boxes available and nothing reserved, prepared
      or on outlet, its article is an enum value, its boxes are the quantity (0 when absent), and a
      date PHP reads as false is stored as `null`. */
  lemma OfferFields(d: OfferRequest, inserted: Option<int>)
    ensures CreateOffer(d, inserted) == Err(MissingOfferData) <==> d.kind.None? || d.name.None?
    ensures CreateOffer(d, inserted) == Err(OfferStoreFailed)
      <==> d.kind.Some? && d.name.Some? && inserted.None?
    ensures CreateOffer(d, inserted).Ok? ==>
      var (o, id) := CreateOffer(d, inserted).value;
      && id == inserted.value
      && o.article in Articles && o.article == Article(Trim(d.kind.value))
      && o.variety == Trim(d.name.value)
      && o.boxes == o.available == d.quantity.GetOr(0)
      && o.reserved == 0 && o.outlet == 0 && o.prepared == 0
      && o.location == InTransit
      && (o.date.None? <==> d.date.None? || Falsy(d.date.value))
      && (o.shipDate.None? <==> d.shipDate.None? || Falsy(d.shipDate.value))
      && (o.date.Some? ==> o.date == d.date)
      && (o.shipDate.Some? ==> o.shipDate == d.shipDate)
  {
  }
}
