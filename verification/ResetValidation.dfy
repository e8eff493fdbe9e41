/** Validation and normalization of a reset policy document
    (controller/guardian/port_traffic.py:95-155 and 174-187). */
module ResetValidation {
  import opened Base
  import opened Calendar
  import opened ResetSchedule

  /** A JSON value. A text that parses as an ISO date is kept as its date and a number for its
      spelling; spelling 0 is the canonical one. Python counts booleans as integers. */
  datatype Json =
    | Text(text: string)
    | IsoDate(date: Date, spelling: nat)
    | Whole(n: int)
    | Flag(b: bool)
    | Other

  type Document = map<string, Json>

  const ALLOWED: set<string> := {"type", "timezone", "day", "month", "every", "anchor_date", "date"}
  const TYPES: set<string> := {"manual", "monthly", "interval_days", "interval_months", "yearly", "fixed_date"}

  /** The document that validation of an empty one gives. */
  const MANUAL: Document := map["type" := Text("manual"), "timezone" := Text("UTC")]

  function Get(d: Document, key: string, default: Json): Json {
    if key in d then d[key] else default
  }

  /** The integer a JSON value is for Python, if it is one. */
  function IntOf(j: Json): Option<int> {
    match j
    case Whole(n) => Some(n)
    case Flag(b) => Some(if b then 1 else 0)
    case _ => None
  }

  predicate IntWithin(d: Document, key: string, low: int, high: int) {
    key in d && IntOf(d[key]).Some? && low <= IntOf(d[key]).value <= high
  }

  function Canonical(j: Json): Json
    requires j.IsoDate?
  {
    IsoDate(j.date, 0)
  }

  predicate HasDate(d: Document, key: string) {
    key in d && d[key].IsoDate?
  }

  function Validate(value: Document, zones: set<string>): Result<Document, string> {
    if value == map[] then Ok(MANUAL)
    else if !(value.Keys <= ALLOWED) then Err("reset policy contains unsupported fields")
    else
      var kind := Get(value, "type", Text("manual"));
      var zone := Get(value, "timezone", Text("UTC"));
      if !kind.Text? || kind.text !in TYPES then Err("reset policy type is unsupported")
      else if !zone.Text? || |zone.text| > 64 then Err("reset timezone is invalid")
      else if zone.text !in zones then Err("reset timezone is unknown")
      else
        var t := kind.text;
        if t in {"monthly", "interval_months", "yearly"} && !IntWithin(value, "day", 1, 31) then
          Err("reset day must be between 1 and 31")
        else if t == "yearly" && !IntWithin(value, "month", 1, 12) then
          Err("reset month must be between 1 and 12")
        else if t in {"interval_days", "interval_months"}
          && !IntWithin(value, "every", 1, if t == "interval_days" then 366 else 120) then
          Err("reset interval is outside the supported range")
        else if t in {"interval_days", "interval_months"} && !HasDate(value, "anchor_date") then
          Err("anchor_date must be an ISO date")
        else if t == "fixed_date" && !HasDate(value, "date") then Err("date must be an ISO date")
        else Ok(Kept(value, kind, zone))
  }

  predicate KeepsDay(t: string) {
    t == "monthly" || t == "interval_months" || t == "yearly"
  }

  predicate KeepsInterval(t: string) {
    t == "interval_days" || t == "interval_months"
  }

  /** The fields the policy type needs, dates respelled. */
  function Kept(value: Document, kind: Json, zone: Json): Document
    requires kind.Text?
    requires KeepsDay(kind.text) ==> "day" in value
    requires kind.text == "yearly" ==> "month" in value
    requires KeepsInterval(kind.text) ==> "every" in value && HasDate(value, "anchor_date")
    requires kind.text == "fixed_date" ==> HasDate(value, "date")
  {
    var t := kind.text;
    var base: Document := map["type" := kind, "timezone" := zone];
    var withDay := if KeepsDay(t) then base["day" := value["day"]] else base;
    var withMonth := if t == "yearly" then withDay["month" := value["month"]] else withDay;
    var withInterval :=
      if KeepsInterval(t) then withMonth["every" := value["every"]]["anchor_date" := Canonical(value["anchor_date"])]
      else withMonth;
    if t == "fixed_date" then withInterval["date" := Canonical(value["date"])] else withInterval
  }

  /** Every date in the document is one Python can represent. */
  ghost predicate DatesExist(value: Document) {
    forall key | key in value && value[key].IsoDate? :: Representable(value[key].date)
  }

  /** A document that validation has produced. */
  ghost predicate IsNormalDocument(d: Document) {
    && "type" in d && d["type"].Text? && d["type"].text in TYPES
    && (KeepsDay(d["type"].text) ==> IntWithin(d, "day", 1, 31))
    && (d["type"].text == "yearly" ==> IntWithin(d, "month", 1, 12))
    && (KeepsInterval(d["type"].text) ==>
          IntWithin(d, "every", 1, if d["type"].text == "interval_days" then 366 else 120) && HasDate(d, "anchor_date"))
    && (d["type"].text == "fixed_date" ==> HasDate(d, "date"))
  }

  /** The schedule a normal document stands for. */
  ghost function PolicyOf(d: Document): ResetPolicy
    requires IsNormalDocument(d)
  {
    var t := d["type"].text;
    if t == "monthly" then Monthly(IntOf(d["day"]).value)
    else if t == "yearly" then Yearly(IntOf(d["month"]).value, IntOf(d["day"]).value)
    else if t == "fixed_date" then FixedDate(d["date"].date)
    else if t == "interval_days" then IntervalDays(d["anchor_date"].date, IntOf(d["every"]).value)
    else if t == "interval_months" then
      IntervalMonths(d["anchor_date"].date, IntOf(d["every"]).value, IntOf(d["day"]).value)
    else Manual
  }

  /** What each kept field holds. */
  lemma KeptFields(value: Document, kind: Json, zone: Json)
    requires kind.Text?
    requires KeepsDay(kind.text) ==> "day" in value
    requires kind.text == "yearly" ==> "month" in value
    requires KeepsInterval(kind.text) ==> "every" in value && HasDate(value, "anchor_date")
    requires kind.text == "fixed_date" ==> HasDate(value, "date")
    ensures var d, t := Kept(value, kind, zone), kind.text;
            && d.Keys <= ALLOWED && "type" in d && d["type"] == kind && "timezone" in d && d["timezone"] == zone
            && (KeepsDay(t) ==> "day" in d && d["day"] == value["day"])
            && (t == "yearly" ==> "month" in d && d["month"] == value["month"])
            && (KeepsInterval(t) ==> "every" in d && d["every"] == value["every"])
            && (KeepsInterval(t) ==> HasDate(d, "anchor_date") && d["anchor_date"] == Canonical(value["anchor_date"]))
            && (t == "fixed_date" ==> HasDate(d, "date") && d["date"] == Canonical(value["date"]))
  {
  }

  /** What validation accepts: the manual policy, or a document whose fields it has checked. */
  lemma AcceptedFields(value: Document, zones: set<string>)
    requires Validate(value, zones).Ok? && value != map[]
    ensures var kind, zone := Get(value, "type", Text("manual")), Get(value, "timezone", Text("UTC"));
            && kind.Text? && kind.text in TYPES && zone.Text? && |zone.text| <= 64 && zone.text in zones
            && (KeepsDay(kind.text) ==> IntWithin(value, "day", 1, 31))
            && (kind.text == "yearly" ==> IntWithin(value, "month", 1, 12))
            && (KeepsInterval(kind.text) ==>
                  IntWithin(value, "every", 1, if kind.text == "interval_days" then 366 else 120)
                  && HasDate(value, "anchor_date"))
            && (kind.text == "fixed_date" ==> HasDate(value, "date"))
            && Validate(value, zones) == Ok(Kept(value, kind, zone))
  {
  }

  lemma AcceptedIsNormalDocument(value: Document, zones: set<string>)
    requires Validate(value, zones).Ok?
    ensures IsNormalDocument(Validate(value, zones).value)
  {
    if value != map[] {
      AcceptedFields(value, zones);
      KeptFields(value, Get(value, "type", Text("manual")), Get(value, "timezone", Text("UTC")));
    }
  }

  /** What validation accepts is a policy within the bounds the date computation needs; in
      particular every interval is at least one, so its stepping loop ends. */
  lemma ValidatedIsNormalized(value: Document, zones: set<string>)
    requires DatesExist(value) && Validate(value, zones).Ok?
    ensures IsNormalDocument(Validate(value, zones).value)
    ensures Normalized(PolicyOf(Validate(value, zones).value))
  {
    AcceptedIsNormalDocument(value, zones);
    if value != map[] {
      AcceptedFields(value, zones);
      var kind := Get(value, "type", Text("manual"));
      KeptFields(value, kind, Get(value, "timezone", Text("UTC")));
      if kind.text == "fixed_date" {
        assert Representable(value["date"].date);
      }
      if KeepsInterval(kind.text) {
        assert Representable(value["anchor_date"].date);
      }
    }
  }

  /** A checked document passes the checks again. */
  lemma NormalIsAccepted(d: Document, zones: set<string>)
    requires IsNormalDocument(d) && d.Keys <= ALLOWED
    requires "timezone" in d && d["timezone"].Text? && |d["timezone"].text| <= 64 && d["timezone"].text in zones
    ensures Validate(d, zones) == Ok(Kept(d, d["type"], d["timezone"]))
  {
  }

  /** Validating a normalized document changes nothing: the stored form is a fixed point. */
  lemma ValidateIdempotent(value: Document, zones: set<string>)
    requires "UTC" in zones && Validate(value, zones).Ok?
    ensures Validate(Validate(value, zones).value, zones) == Validate(value, zones)
  {
    var d := Validate(value, zones).value;
    AcceptedIsNormalDocument(value, zones);
    if value == map[] {
      NormalIsAccepted(MANUAL, zones);
    } else {
      AcceptedFields(value, zones);
      KeptFields(value, Get(value, "type", Text("manual")), Get(value, "timezone", Text("UTC")));
      NormalIsAccepted(d, zones);
      assert Kept(d, d["type"], d["timezone"]) == d;
    }
  }

  // ---------------------------------------------------------------- acceptance in plain terms

  /** The field is an integer, or a boolean counted as one, between these bounds. */
  predicate HasNumber(d: Document, key: string, low: int, high: int) {
    key in d &&
    match d[key]
    case Whole(n) => low <= n <= high
    case Flag(b) => low <= (if b then 1 else 0) <= high
    case _ => false
  }

  /** The type and the time zone of a document, and what they default to. */
  predicate IsHeader(value: Document, t: string, zone: string) {
    && (if "type" in value then value["type"] == Text(t) else t == "manual")
    && (if "timezone" in value then value["timezone"] == Text(zone) else zone == "UTC")
  }

  /** The fields each type needs, and their bounds. */
  predicate HasFields(value: Document, t: string) {
    || t == "manual"
    || (t == "monthly" && HasNumber(value, "day", 1, 31))
    || (t == "yearly" && HasNumber(value, "day", 1, 31) && HasNumber(value, "month", 1, 12))
    || (t == "fixed_date" && "date" in value && value["date"].IsoDate?)
    || (t == "interval_days" && HasNumber(value, "every", 1, 366)
        && "anchor_date" in value && value["anchor_date"].IsoDate?)
    || (t == "interval_months" && HasNumber(value, "every", 1, 120) && HasNumber(value, "day", 1, 31)
        && "anchor_date" in value && value["anchor_date"].IsoDate?)
  }

  /** What is stored: the type, the zone and the needed fields, dates in canonical spelling. */
  function StoredForm(value: Document, t: string, zone: string): Document
    requires HasFields(value, t)
  {
    var header: Document := map["type" := Text(t), "timezone" := Text(zone)];
    if t == "manual" then header
    else if t == "monthly" then header["day" := value["day"]]
    else if t == "yearly" then header["day" := value["day"]]["month" := value["month"]]
    else if t == "fixed_date" then header["date" := IsoDate(value["date"].date, 0)]
    else
      var anchored := header["every" := value["every"]]["anchor_date" := IsoDate(value["anchor_date"].date, 0)];
      if t == "interval_days" then anchored else anchored["day" := value["day"]]
  }

  /** Main result: a non-empty document is accepted if and only if it has no unknown field, a known
      type, a known time zone of at most 64 characters, and the fields of its type within their
      bounds; and then exactly those fields are stored. */
  lemma ValidatesIff(value: Document, zones: set<string>, t: string, zone: string)
    requires value != map[] && IsHeader(value, t, zone)
    ensures Validate(value, zones).Ok? <==>
      && (forall key <- value :: key in {"type", "timezone", "day", "month", "every", "anchor_date", "date"})
      && HasFields(value, t) && |zone| <= 64 && zone in zones
    ensures Validate(value, zones).Ok? ==> Validate(value, zones).value == StoredForm(value, t, zone)
  {
    FieldsAreChecked(value, t);
    if Validate(value, zones).Ok? {
      AcceptedFields(value, zones);
      KeptIsStored(value, t, zone);
    }
  }

  lemma FieldsAreChecked(value: Document, t: string)
    ensures HasFields(value, t) <==>
      && t in TYPES
      && (KeepsDay(t) ==> IntWithin(value, "day", 1, 31))
      && (t == "yearly" ==> IntWithin(value, "month", 1, 12))
      && (KeepsInterval(t) ==>
            IntWithin(value, "every", 1, if t == "interval_days" then 366 else 120) && HasDate(value, "anchor_date"))
      && (t == "fixed_date" ==> HasDate(value, "date"))
  {
  }

  lemma KeptIsStored(value: Document, t: string, zone: string)
    requires HasFields(value, t)
    requires KeepsDay(t) ==> "day" in value
    requires t == "yearly" ==> "month" in value
    requires KeepsInterval(t) ==> "every" in value && HasDate(value, "anchor_date")
    requires t == "fixed_date" ==> HasDate(value, "date")
    ensures Kept(value, Text(t), Text(zone)) == StoredForm(value, t, zone)
  {
  }

  /** A document whose type or time zone is no text has no header, and is refused. */
  lemma NoHeaderIsRefused(value: Document, zones: set<string>)
    requires value != map[] && forall t, zone :: !IsHeader(value, t, zone)
    ensures Validate(value, zones).Err?
  {
    var kind, zone := Get(value, "type", Text("manual")), Get(value, "timezone", Text("UTC"));
    if kind.Text? && zone.Text? {
      assert IsHeader(value, kind.text, zone.text);
    }
  }
}
