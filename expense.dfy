/** The expense entity (src/models/expense.py): guarded construction with defaults, identity
    generation, and the six-key record written to and read back from a file.

    The clock and the random generator are parameters: `now` is the reading of datetime.now()
    and `suffix` the six characters random.choices draws. */
module Expenses {
  import opened Exceptions
  import opened Calendar
  import opened Text

  const AmountMessage := "Amount must be greater than zero"

  /** string.ascii_lowercase + string.digits */
  predicate IsSuffixChar(c: char) {
    'a' <= c <= 'z' || '0' <= c <= '9'
  }

  /** What random.choices(ascii_lowercase + digits, k=6) can return. */
  type Suffix = s: string | |s| == 6 && forall i :: 0 <= i < |s| ==> IsSuffixChar(s[i])
    witness "000000"

  datatype Expense = Expense(id: string, amount: real, category: string, description: string,
                             date: string, createdAt: string)

  /** What every constructed expense satisfies: a positive amount and non-empty id, date and
      creation stamp. */
  predicate WellFormed(e: Expense) {
    e.amount > 0.0 && e.id != "" && e.date != "" && e.createdAt != ""
  }

  /** Python's `value if value else default` on an optional string: None and "" are falsy. */
  function Supplied(value: Option<string>, default: string): (r: string)
    ensures value.Some? && value.value != "" ==> r == value.value
    ensures value.None? || value.value == "" ==> r == default
  {
    if value.Some? && value.value != "" then value.value else default
  }

  /** Expense.generate_id: "exp_", the date and time of `now`, and the random suffix. */
  function GenerateId(now: Clock, suffix: Suffix): (id: string)
    ensures |id| == 26 && StartsWith(id, "exp_") && id[12] == '_' && id[19] == '_'
    ensures AllDigits(id[4..12]) && AllDigits(id[13..19]) && id[20..] == suffix
  {
    "exp_" + FormatStamp(now) + "_" + suffix
  }

  /** Expense(amount, category, description, date, expense_id, created_at). */
  function New(amount: real, category: string, description: string,
               date: Option<string>, id: Option<string>, createdAt: Option<string>,
               now: Clock, suffix: Suffix): (r: Result<Expense>)
    ensures r.Err? <==> amount <= 0.0
    ensures r.Err? ==> r.error == ValueError(AmountMessage)
    ensures r.Ok? ==> WellFormed(r.value)
    ensures r.Ok? ==> r.value.amount == amount && r.value.category == category
                        && r.value.description == description
  {
    if amount <= 0.0 then Err(ValueError(AmountMessage))
    else Ok(Expense(Supplied(id, GenerateId(now, suffix)), amount, category, description,
                    Supplied(date, FormatDate(now)), Supplied(createdAt, IsoFormat(now))))
  }

  /** A supplied non-empty date, id or creation stamp is kept verbatim; an absent or empty
      one is replaced by today's date, a generated id, or the current timestamp. */
  lemma NewDefaults(amount: real, category: string, description: string,
                    date: Option<string>, id: Option<string>, createdAt: Option<string>,
                    now: Clock, suffix: Suffix)
    requires amount > 0.0
    ensures var e := New(amount, category, description, date, id, createdAt, now, suffix).value;
      && e.date == (if date.Some? && date.value != "" then date.value else FormatDate(now))
      && e.id == (if id.Some? && id.value != "" then id.value else GenerateId(now, suffix))
      && e.createdAt == (if createdAt.Some? && createdAt.value != "" then createdAt.value
                         else IsoFormat(now))
  {
  }

  /** A generated id splits on '_' into exactly "exp", eight date digits, six time digits and
      the six random characters. */
  lemma GenerateIdFormat(now: Clock, suffix: Suffix)
    ensures var parts := Split(GenerateId(now, suffix), '_');
      && |parts| == 4
      && parts[0] == "exp"
      && parts[1] == Digits(now.year, 4) + Digits(now.month, 2) + Digits(now.day, 2)
      && parts[2] == Digits(now.hour, 2) + Digits(now.minute, 2) + Digits(now.second, 2)
      && parts[3] == suffix
      && |parts[1]| == 8 && AllDigits(parts[1]) && |parts[2]| == 6 && AllDigits(parts[2])
    ensures StartsWith(GenerateId(now, suffix), "exp_")
  {
    var date := Digits(now.year, 4) + Digits(now.month, 2) + Digits(now.day, 2);
    var time := Digits(now.hour, 2) + Digits(now.minute, 2) + Digits(now.second, 2);
    assert AllDigits(date) && AllDigits(time);
    assert GenerateId(now, suffix) == "exp_" + date + "_" + time + "_" + suffix;
    SplitStampId(date, time, suffix);
  }

  /** "exp_<date>_<time>_<suffix>" splits on '_' into its four pieces when none holds a '_'. */
  lemma SplitStampId(date: string, time: string, suffix: Suffix)
    requires AllDigits(date) && AllDigits(time)
    ensures Split("exp_" + date + "_" + time + "_" + suffix, '_') == ["exp", date, time, suffix]
  {
    assert '_' !in date && '_' !in time && '_' !in suffix by {
      assert !IsDigit('_') && !IsSuffixChar('_');
    }
    assert "exp_" + date + "_" + time + "_" + suffix
        == "exp" + ['_'] + (date + ['_'] + (time + ['_'] + suffix));
    SplitAt("exp", '_', date + ['_'] + (time + ['_'] + suffix));
    SplitAt(date, '_', time + ['_'] + suffix);
    SplitAt(time, '_', suffix);
    SplitWithout(suffix, '_');
  }

  // ---- The record form written to and read from a JSON file ----

  /** A JSON value as json.load returns it for the fields of a record. */
  datatype Json = JString(s: string) | JNumber(x: real) | JNull

  /** The parsed records the model covers: category and description hold strings, and id,
      date and created_at hold strings or null, whenever they are present. Any key may be
      absent and other keys may be present. */
  predicate IsRecord(m: map<string, Json>) {
    && ("category" in m ==> m["category"].JString?)
    && ("description" in m ==> m["description"].JString?)
    && ("id" in m ==> !m["id"].JNumber?)
    && ("date" in m ==> !m["date"].JNumber?)
    && ("created_at" in m ==> !m["created_at"].JNumber?)
  }

  type Record = m: map<string, Json> | IsRecord(m) witness map[]

  const RecordKeys: set<string> := {"id", "amount", "category", "description", "date", "created_at"}

  /** The keys from_dict reads with data[key] rather than data.get(key). */
  const RequiredKeys: set<string> := {"amount", "category", "description"}

  /** Expense.to_dict: exactly the six keys, each holding its field. */
  function ToDict(e: Expense): (r: Record)
    ensures r.Keys == RecordKeys
    ensures r["id"] == JString(e.id) && r["amount"] == JNumber(e.amount)
    ensures r["category"] == JString(e.category) && r["description"] == JString(e.description)
    ensures r["date"] == JString(e.date) && r["created_at"] == JString(e.createdAt)
  {
    map["id" := JString(e.id), "amount" := JNumber(e.amount), "category" := JString(e.category),
        "description" := JString(e.description), "date" := JString(e.date),
        "created_at" := JString(e.createdAt)]
  }

  /** data.get(key) for an optional string field: None when absent or null. */
  function Get(rec: Record, key: string): (r: Option<string>)
    ensures r.Some? <==> key in rec && rec[key].JString?
    ensures r.Some? ==> rec[key] == JString(r.value)
  {
    if key in rec && rec[key].JString? then Some(rec[key].s) else None
  }

  /** Expense.from_dict: data["amount"], data["category"] and data["description"] are read in
      that order (a KeyError names the first one missing); a non-numeric amount fails its
      `<= 0` comparison with a TypeError; then the constructor runs. */
  function FromDict(rec: Record, now: Clock, suffix: Suffix): (r: Result<Expense>)
    ensures r.Ok? ==> RequiredKeys <= rec.Keys && WellFormed(r.value)
    ensures r.Err? ==> r.error in {KeyError("amount"), KeyError("category"),
                                   KeyError("description"), TypeError, ValueError(AmountMessage)}
  {
    if "amount" !in rec then Err(KeyError("amount"))
    else if "category" !in rec then Err(KeyError("category"))
    else if "description" !in rec then Err(KeyError("description"))
    else match rec["amount"]
      case JNumber(x) =>
        New(x, rec["category"].s, rec["description"].s,
            Get(rec, "date"), Get(rec, "id"), Get(rec, "created_at"), now, suffix)
      case _ => Err(TypeError)
  }

  /** from_dict fails exactly when a required key is absent (a KeyError naming the first one in
      the order amount, category, description), when the amount is not a number (TypeError),
      or when it is not positive (the constructor's ValueError). */
  lemma FromDictFailures(rec: Record, now: Clock, suffix: Suffix)
    ensures var r := FromDict(rec, now, suffix);
      && (r.Err? <==> ("amount" !in rec || "category" !in rec || "description" !in rec
                       || !rec["amount"].JNumber? || rec["amount"].x <= 0.0))
      && ("amount" !in rec ==> r == Err(KeyError("amount")))
      && ("amount" in rec && "category" !in rec ==> r == Err(KeyError("category")))
      && ("amount" in rec && "category" in rec && "description" !in rec
          ==> r == Err(KeyError("description")))
      && (RequiredKeys <= rec.Keys && !rec["amount"].JNumber? ==> r == Err(TypeError))
      && (RequiredKeys <= rec.Keys && rec["amount"].JNumber? && rec["amount"].x <= 0.0
          ==> r == Err(ValueError(AmountMessage)))
  {
  }

  /** A successful from_dict keeps category, description and amount, keeps a non-empty id,
      date or created_at verbatim, and fills an absent, null or empty one with its default. */
  lemma FromDictFields(rec: Record, now: Clock, suffix: Suffix)
    requires FromDict(rec, now, suffix).Ok?
    ensures var e := FromDict(rec, now, suffix).value;
      && rec["amount"] == JNumber(e.amount) && e.amount > 0.0
      && rec["category"] == JString(e.category) && rec["description"] == JString(e.description)
      && e.date == (if "date" in rec && rec["date"].JString? && rec["date"].s != ""
                    then rec["date"].s else FormatDate(now))
      && e.id == (if "id" in rec && rec["id"].JString? && rec["id"].s != ""
                  then rec["id"].s else GenerateId(now, suffix))
      && e.createdAt == (if "created_at" in rec && rec["created_at"].JString?
                            && rec["created_at"].s != ""
                         then rec["created_at"].s else IsoFormat(now))
  {
    var x := rec["amount"].x;
    NewDefaults(x, rec["category"].s, rec["description"].s,
                Get(rec, "date"), Get(rec, "id"), Get(rec, "created_at"), now, suffix);
  }

  /** Round trip: every constructed expense is read back from its record unchanged, whatever
      the clock and the random draw (no default is consulted). */
  lemma RoundTrip(e: Expense, now: Clock, suffix: Suffix)
    requires WellFormed(e)
    ensures FromDict(ToDict(e), now, suffix) == Ok(e)
  {
  }

  /** The other direction: a record holding all six keys, with a positive amount and non-empty
      id, date and created_at, is written back by to_dict exactly as it was read. */
  lemma RecordRoundTrip(rec: Record, now: Clock, suffix: Suffix)
    requires rec.Keys == RecordKeys
    requires rec["amount"].JNumber? && rec["amount"].x > 0.0
    requires rec["id"].JString? && rec["id"].s != ""
    requires rec["date"].JString? && rec["date"].s != ""
    requires rec["created_at"].JString? && rec["created_at"].s != ""
    ensures FromDict(rec, now, suffix).Ok?
    ensures ToDict(FromDict(rec, now, suffix).value) == rec
  {
    var d := ToDict(FromDict(rec, now, suffix).value);
    assert forall k | k in RecordKeys :: d[k] == rec[k];
  }
}
