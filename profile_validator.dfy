/** `ProfileValidator`: which fields of a person profile are empty, table by table, how
    complete each table is, and the text report built from that. */
module ProfileValidator {
  import opened Wrappers
  import opened Values
  import Text
  import Seqs
  import Config
  import opened Arith

  /** A field table: dotted paths with their category or description, in declaration order. */
  type Table = seq<(string, string)>

  const RequiredFields: Table := [
    ("name", "Identity"),
    ("professional.role", "Professional"),
    ("professional.organization", "Professional"),
    ("meta.created_at", "Metadata"),
    ("meta.updated_at", "Metadata")
  ]

  const RecommendedFields: Table := [
    ("email", "Identity"),
    ("professional.reports_to", "Professional"),
    ("professional.tenure_started", "Professional"),
    ("personal.location", "Personal"),
    ("personal.family.spouse", "Personal"),
    ("personal.interests", "Personal"),
    ("relationship.meeting_cadence", "Relationship"),
    ("working_context.current_focus", "Working Context")
  ]

  const PersonalFields: Table := [
    ("personal.location", "Where they live"),
    ("personal.hometown", "Where they're from"),
    ("personal.family.spouse", "Spouse/partner"),
    ("personal.family.kids", "Children"),
    ("personal.family.pets", "Pets"),
    ("personal.education", "Education/schools"),
    ("personal.interests", "Hobbies/interests")
  ]

  function Keys(t: Table): (r: seq<string>)
    ensures |r| == |t|
  {
    if t == [] then [] else [t[0].0] + Keys(t[1..])
  }

  /** `dig_field`: follows the path while the current value is a Hash (an absent key gives
      nil); reaching anything else on the way gives nil. */
  function DigField(v: Value, keys: seq<string>): Value
    decreases |keys|
  {
    if keys == [] then v
    else if !v.Hash? then Nil
    else DigField(if keys[0] in v.entries then v.entries[keys[0]] else Nil, keys[1..])
  }

  /** `dig_field` is the configuration walk with every failure turned into nil. */
  lemma {:induction false} DigFieldIsResolveOrNil(v: Value, keys: seq<string>)
    ensures DigField(v, keys) == match Config.Resolve(v, keys) case None => Nil case Some(w) => w
    decreases |keys|
  {
    if keys != [] && v.Hash? {
      if keys[0] in v.entries {
        DigFieldIsResolveOrNil(v.entries[keys[0]], keys[1..]);
      } else {
        DigFieldOfNil(keys[1..]);
      }
    }
  }

  lemma DigFieldOfNil(keys: seq<string>)
    ensures DigField(Nil, keys) == Nil
  {
  }

  /** The values `field_empty?` treats as empty. */
  predicate IsBlank(v: Value)
  {
    v == Nil || v == Str("") || v == List([]) || v == Hash(map[])
  }

  /** Only nil and the empty string, array and hash are empty; `false`, `0` and blank text
      are values. */
  lemma BlankValues()
    ensures IsBlank(Nil) && IsBlank(Str("")) && IsBlank(List([])) && IsBlank(Hash(map[]))
    ensures !IsBlank(Bool(false)) && !IsBlank(Int(0)) && !IsBlank(Str(" ")) && !IsBlank(List([Nil]))
  {
    assert List([Nil]) != List([]) by { assert |List([Nil]).items| == 1; }
  }

  /** `field_empty?(path)`. */
  predicate FieldEmpty(profile: Value, path: string)
  {
    IsBlank(DigField(profile, Text.Split(path, '.')))
  }

  function IsMissingIn(profile: Value): ((string, string)) -> bool
  {
    (e: (string, string)) => FieldEmpty(profile, e.0)
  }

  function IsFilledIn(profile: Value): ((string, string)) -> bool
  {
    (e: (string, string)) => !FieldEmpty(profile, e.0)
  }

  /** A `missing_*` list: exactly the table entries whose field is empty, in table order. */
  function MissingFields(profile: Value, table: Table): (r: Table)
    ensures forall e :: e in r <==> e in table && FieldEmpty(profile, e.0)
    ensures Seqs.IsSubsequence(r, table)
  {
    Seqs.Filter(table, IsMissingIn(profile))
  }

  /** `fields.keys.count { |f| !field_empty?(f) }`: the table's filled fields. */
  function Filled(profile: Value, table: Table): (f: nat)
    ensures f + |MissingFields(profile, table)| == |table|
  {
    Seqs.FilterSplitsLength(table, IsMissingIn(profile), IsFilledIn(profile));
    |Seqs.Filter(table, IsFilledIn(profile))|
  }

  /** `((filled.to_f / size) * 100).round`, in integers: 100·filled/size rounded to the
      nearest integer, halves up. */
  function Percent(filled: nat, size: nat): (r: nat)
    requires filled <= size && size > 0
    ensures r <= 100
    ensures 200 * filled - size < 2 * size * r <= 200 * filled + size
  {
    var r := (200 * filled + size) / (2 * size);
    DivBounds(200 * filled + size, 2 * size);
    MulCancel(2 * size, r, 101);
    r
  }

  /** For tables of fewer than 200 fields, 100 means no field is empty... */
  lemma PercentFullIff(filled: nat, size: nat)
    requires filled <= size && 0 < size < 200
    ensures Percent(filled, size) == 100 <==> filled == size
  {
    var r := Percent(filled, size);
    if filled < size {
      MulCancel(2 * size, r, 100);
    } else {
      MulCancel(2 * size, 99, r);
    }
  }

  /** ... and 0 means every field is empty. */
  lemma PercentZeroIff(filled: nat, size: nat)
    requires filled <= size && 0 < size < 200
    ensures Percent(filled, size) == 0 <==> filled == 0
  {
    var r := Percent(filled, size);
    if filled == 0 {
      MulCancel(2 * size, r, 1);
    } else {
      MulCancel(2 * size, 0, r);
    }
  }

  /** The bound on the table size is needed: 199 of 200 rounds up to 100. */
  lemma LargeTableRoundsUp()
    ensures Percent(199, 200) == 100
  {
  }

  /** `percentage_complete(fields)` for a non-empty table. */
  function PercentComplete(profile: Value, table: Table): (r: nat)
    requires |table| > 0
    ensures r <= 100
  {
    Percent(Filled(profile, table), |table|)
  }

  /** A table of fewer than 200 fields scores 100 exactly when none of its fields is
      empty, and 0 exactly when all of them are. */
  lemma PercentCompleteExtremes(profile: Value, table: Table)
    requires 0 < |table| < 200
    ensures PercentComplete(profile, table) == 100 <==> MissingFields(profile, table) == []
    ensures PercentComplete(profile, table) == 0 <==> |MissingFields(profile, table)| == |table|
  {
    PercentFullIff(Filled(profile, table), |table|);
    PercentZeroIff(Filled(profile, table), |table|);
  }

  /** `Hash#merge` of one entry: a present key keeps its position and takes the new value,
      a new key goes last. */
  function Put(t: Table, e: (string, string)): (r: Table)
    ensures Keys(r) == if e.0 in Keys(t) then Keys(t) else Keys(t) + [e.0]
    decreases |t|
  {
    if t == [] then [e]
    else if t[0].0 == e.0 then [e] + t[1..]
    else
      var rest := Put(t[1..], e);
      assert Keys(t) == [t[0].0] + Keys(t[1..]);
      assert Keys([t[0]] + rest) == [t[0].0] + Keys(rest);
      [t[0]] + rest
  }

  /** `a.merge(b)`. */
  function Merge(a: Table, b: Table): Table
    decreases |b|
  {
    if b == [] then a else Merge(Put(a, b[0]), b[1..])
  }

  /** The keys of `ks` not seen before (in `seen` or earlier in `ks`), in order. */
  function NewKeys(ks: seq<string>, seen: seq<string>): seq<string>
    decreases |ks|
  {
    if ks == [] then []
    else if ks[0] in seen then NewKeys(ks[1..], seen)
    else [ks[0]] + NewKeys(ks[1..], seen + [ks[0]])
  }

  /** `a.merge(b)` keeps the keys of `a` where they are and appends the new keys of `b`
      in `b`'s order. */
  lemma {:induction false} MergeKeys(a: Table, b: Table)
    ensures Keys(Merge(a, b)) == Keys(a) + NewKeys(Keys(b), Keys(a))
    decreases |b|
  {
    if b == [] {
      assert Keys(a) + [] == Keys(a);
    } else {
      var next := Put(a, b[0]);
      var x, kb := b[0].0, Keys(b[1..]);
      MergeKeys(next, b[1..]);
      NewKeysCons(x, kb, Keys(a));
      if x !in Keys(a) {
        Seqs.Assoc(Keys(a), [x], NewKeys(kb, Keys(a) + [x]));
      }
    }
  }

  lemma NewKeysCons(x: string, ks: seq<string>, seen: seq<string>)
    ensures NewKeys([x] + ks, seen) == if x in seen then NewKeys(ks, seen) else [x] + NewKeys(ks, seen + [x])
  {
    assert ([x] + ks)[1..] == ks;
  }

  /** The elements of `ks` whose flag in `mask` is set. */
  function Select(ks: seq<string>, mask: seq<bool>): seq<string>
    requires |mask| == |ks|
  {
    if ks == [] then [] else (if mask[0] then [ks[0]] else []) + Select(ks[1..], mask[1..])
  }

  /** For distinct keys, the new ones are exactly those not already seen. */
  lemma {:induction false} NewKeysByMask(ks: seq<string>, seen: seq<string>, mask: seq<bool>)
    requires |mask| == |ks| && Seqs.Distinct(ks)
    requires forall i :: 0 <= i < |ks| ==> (mask[i] <==> ks[i] !in seen)
    ensures NewKeys(ks, seen) == Select(ks, mask)
    decreases |ks|
  {
    if ks != [] {
      assert forall i :: 0 <= i < |ks[1..]| ==> ks[1..][i] == ks[i + 1] && mask[1..][i] == mask[i + 1];
      if ks[0] in seen {
        NewKeysByMask(ks[1..], seen, mask[1..]);
      } else {
        NewKeysByMask(ks[1..], seen + [ks[0]], mask[1..]);
      }
    }
  }

  const RequiredKeys: seq<string> := ["name", "professional.role", "professional.organization",
    "meta.created_at", "meta.updated_at"]

  const RecommendedKeys: seq<string> := ["email", "professional.reports_to", "professional.tenure_started",
    "personal.location", "personal.family.spouse", "personal.interests", "relationship.meeting_cadence",
    "working_context.current_focus"]

  const PersonalKeys: seq<string> := ["personal.location", "personal.hometown", "personal.family.spouse",
    "personal.family.kids", "personal.family.pets", "personal.education", "personal.interests"]

  /** The personal keys that neither the required nor the recommended table has. */
  const PersonalOnlyKeys: seq<string> := ["personal.hometown", "personal.family.kids", "personal.family.pets",
    "personal.education"]

  const RecommendedMask: seq<bool> := [true, true, true, true, true, true, true, true]
  const PersonalMask: seq<bool> := [false, true, false, true, true, true, false]

  lemma RequiredTableKeys()
    ensures Keys(RequiredFields) == RequiredKeys
  {
  }

  lemma RecommendedTableKeys()
    ensures Keys(RecommendedFields) == RecommendedKeys
  {
  }

  lemma PersonalTableKeys()
    ensures Keys(PersonalFields) == PersonalKeys
  {
  }

  lemma RecommendedDistinct()
    ensures Seqs.Distinct(RecommendedKeys)
  {
  }

  lemma RecommendedMaskFacts()
    ensures forall i :: 0 <= i < |RecommendedKeys| ==> (RecommendedMask[i] <==> RecommendedKeys[i] !in RequiredKeys)
  {
  }

  lemma RecommendedSelect()
    ensures Select(RecommendedKeys, RecommendedMask) == RecommendedKeys
  {
  }

  lemma PersonalDistinct()
    ensures Seqs.Distinct(PersonalKeys)
  {
  }

  lemma PersonalMaskFacts()
    ensures forall i :: 0 <= i < |PersonalKeys| ==> (PersonalMask[i] <==> PersonalKeys[i] !in RequiredKeys + RecommendedKeys)
  {
  }

  lemma PersonalSelect()
    ensures Select(PersonalKeys, PersonalMask) == PersonalOnlyKeys
  {
  }

  /** No recommended key is a required one. */
  lemma RecommendedKeysAreNew()
    ensures NewKeys(RecommendedKeys, RequiredKeys) == RecommendedKeys
  {
    RecommendedDistinct();
    RecommendedMaskFacts();
    RecommendedSelect();
    NewKeysByMask(RecommendedKeys, RequiredKeys, RecommendedMask);
  }

  /** Three of the personal keys are already recommended ones. */
  lemma PersonalKeysAddFour()
    ensures NewKeys(PersonalKeys, RequiredKeys + RecommendedKeys) == PersonalOnlyKeys
  {
    PersonalDistinct();
    PersonalMaskFacts();
    PersonalSelect();
    NewKeysByMask(PersonalKeys, RequiredKeys + RecommendedKeys, PersonalMask);
  }

  /** The table behind the `overall` score: the required keys, then the recommended ones,
      then the four personal keys no earlier table has. Keys shared between tables count
      once, so it has 17 fields. */
  function OverallFields(): (r: Table)
    ensures Keys(r) == RequiredKeys + RecommendedKeys + PersonalOnlyKeys
    ensures |r| == 17
  {
    var first := Merge(RequiredFields, RecommendedFields);
    RequiredTableKeys();
    RecommendedTableKeys();
    PersonalTableKeys();
    MergeKeys(RequiredFields, RecommendedFields);
    RecommendedKeysAreNew();
    MergeKeys(first, PersonalFields);
    PersonalKeysAddFour();
    Merge(first, PersonalFields)
  }

  /** `results[:completeness]`. */
  datatype Completeness = Completeness(required: nat, recommended: nat, personal: nat, overall: nat)

  /** The hash `validate` returns. */
  datatype Results = Results(name: Value, missingRequired: Table, missingRecommended: Table,
                             missingPersonal: Table, completeness: Completeness)

  /** `@profile["name"]`: a Hash looks the key up; a String gives the substring "name" when
      it occurs in it (`String#[]`); any other document raises. */
  function ProfileName(profile: Value): (r: Option<Value>)
    ensures profile.Hash? ==> r == Some(if "name" in profile.entries then profile.entries["name"] else Nil)
    ensures r.None? <==> !profile.Hash? && !profile.Str?
  {
    match profile
    case Hash(entries) => Some(if "name" in entries then entries["name"] else Nil)
    case Str(s) => Some(if Text.Contains(s, "name") then Str("name") else Nil)
    case _ => None
  }

  /** What `validate` computes, when `@profile["name"]` does not raise. */
  function Validation(profile: Value): (r: Option<Results>)
    ensures r.Some? <==> ProfileName(profile).Some?
    ensures r.Some? ==> ScoresInRange(r.value.completeness)
  {
    match ProfileName(profile)
    case None => None
    case Some(name) =>
      Some(Results(name,
        MissingFields(profile, RequiredFields), MissingFields(profile, RecommendedFields),
        MissingFields(profile, PersonalFields),
        Completeness(PercentComplete(profile, RequiredFields), PercentComplete(profile, RecommendedFields),
                     PercentComplete(profile, PersonalFields), PercentComplete(profile, OverallFields()))))
  }

  /** One `TABLE.each { ... << ... if field_empty?(field) }` loop. */
  method CollectMissing(profile: Value, table: Table) returns (missing: Table)
    ensures missing == MissingFields(profile, table)
  {
    var missingIn := IsMissingIn(profile);
    missing := [];
    var i := 0;
    while i < |table|
      invariant 0 <= i <= |table|
      invariant missing == Seqs.Filter(table[..i], missingIn)
    {
      Seqs.FilterPrefixStep(table, i, missingIn);
      if missingIn(table[i]) {
        missing := missing + [table[i]];
      }
      i := i + 1;
    }
    assert table[..i] == table;
  }

  /** `validate`; `None` when `@profile["name"]` raises. */
  method Validate(profile: Value) returns (r: Option<Results>)
    ensures r == Validation(profile)
  {
    var name := ProfileName(profile);
    if name.None? {
      return None;
    }
    var required := CollectMissing(profile, RequiredFields);
    var recommended := CollectMissing(profile, RecommendedFields);
    var personal := CollectMissing(profile, PersonalFields);
    var scores := Completeness(PercentComplete(profile, RequiredFields), PercentComplete(profile, RecommendedFields),
                               PercentComplete(profile, PersonalFields), PercentComplete(profile, OverallFields()));
    r := Some(Results(name.value, required, recommended, personal, scores));
  }

  const BarWidth: nat := 20

  /** The number of `#` cells: pct·width/100 rounded to the nearest integer, halves up. */
  function BarFill(pct: nat, width: nat): (f: nat)
    requires pct <= 100
    ensures f <= width
    ensures 2 * pct * width - 100 < 200 * f <= 2 * pct * width + 100
  {
    MulMonotone(pct, 100, width);
    (2 * pct * width + 100) / 200
  }

  /** `completeness_bar(pct, width)`. */
  function CompletenessBar(pct: nat, width: nat): (r: string)
    requires pct <= 100
    ensures |r| == width + 2 && r[0] == '[' && r[width + 1] == ']'
    ensures forall i :: 1 <= i <= width ==> r[i] == if i <= BarFill(pct, width) then '#' else '-'
  {
    var filled := BarFill(pct, width);
    "[" + Text.Repeat('#', filled) + Text.Repeat('-', width - filled) + "]"
  }

  /** A full score fills the bar and a zero score leaves it empty. */
  lemma BarExtremes(width: nat)
    ensures BarFill(100, width) == width && BarFill(0, width) == 0
  {
  }

  const RequiredHeading: string := "Missing REQUIRED fields:"
  const PersonalHeading: string := "Missing PERSONAL details (for the bio):"
  const RecommendedHeading: string := "Missing recommended fields:"

  predicate IsHeading(line: string)
  {
    line == RequiredHeading || line == PersonalHeading || line == RecommendedHeading
  }

  /** A line that starts with a space is no heading. */
  lemma IndentedIsNotHeading(line: string)
    requires |line| > 0 && line[0] == ' '
    ensures !IsHeading(line)
  {
    assert RequiredHeading[0] == 'M' && PersonalHeading[0] == 'M' && RecommendedHeading[0] == 'M';
  }

  predicate ScoresInRange(c: Completeness)
  {
    c.required <= 100 && c.recommended <= 100 && c.personal <= 100 && c.overall <= 100
  }

  /** The completeness hash as the pairs `each` visits, in insertion order. */
  function Scores(c: Completeness): (r: seq<(string, nat)>)
    ensures ScoresInRange(c) ==> forall i :: 0 <= i < |r| ==> r[i].1 <= 100
  {
    [("required", c.required), ("recommended", c.recommended), ("personal", c.personal), ("overall", c.overall)]
  }

  /** One completeness line: two spaces, the category padded to 12, the bar and the
      percentage. */
  function ScoreLine(score: (string, nat)): (r: string)
    requires score.1 <= 100
    ensures |r| > 0 && r[0] == ' '
  {
    "  " + Text.LJust(score.0, 12) + " " + CompletenessBar(score.1, BarWidth) + " " + Text.NatToString(score.1) + "%"
  }

  function ScoreLines(scores: seq<(string, nat)>): (r: seq<string>)
    requires forall i :: 0 <= i < |scores| ==> scores[i].1 <= 100
  {
    if scores == [] then [] else [ScoreLine(scores[0])] + ScoreLines(scores[1..])
  }

  lemma {:induction false} ScoreLinesAppend(scores: seq<(string, nat)>, x: (string, nat))
    requires forall i :: 0 <= i < |scores| ==> scores[i].1 <= 100
    requires x.1 <= 100
    ensures ScoreLines(scores + [x]) == ScoreLines(scores) + [ScoreLine(x)]
    decreases |scores|
  {
    if scores == [] {
      assert scores + [x] == [x];
    } else {
      assert (scores + [x])[1..] == scores[1..] + [x];
      ScoreLinesAppend(scores[1..], x);
    }
  }

  lemma ScoreLinesPrefixStep(scores: seq<(string, nat)>, i: nat)
    requires forall k :: 0 <= k < |scores| ==> scores[k].1 <= 100
    requires i < |scores|
    ensures ScoreLines(scores[..i + 1]) == ScoreLines(scores[..i]) + [ScoreLine(scores[i])]
  {
    assert scores[..i + 1] == scores[..i] + [scores[i]];
    ScoreLinesAppend(scores[..i], scores[i]);
  }

  /** One item of a missing-field section; personal items carry their description. */
  function Item(e: (string, string), described: bool): (r: string)
    ensures |r| > 0 && r[0] == ' '
  {
    if described then "  - " + e.1 + " (" + e.0 + ")" else "  - " + e.0
  }

  function Items(missing: Table, described: bool): (r: seq<string>)
  {
    if missing == [] then [] else [Item(missing[0], described)] + Items(missing[1..], described)
  }

  lemma {:induction false} ItemsAppend(missing: Table, x: (string, string), described: bool)
    ensures Items(missing + [x], described) == Items(missing, described) + [Item(x, described)]
    decreases |missing|
  {
    if missing == [] {
      assert missing + [x] == [x];
    } else {
      assert (missing + [x])[1..] == missing[1..] + [x];
      ItemsAppend(missing[1..], x, described);
    }
  }

  lemma ItemsPrefixStep(missing: Table, i: nat, described: bool)
    requires i < |missing|
    ensures Items(missing[..i + 1], described) == Items(missing[..i], described) + [Item(missing[i], described)]
  {
    assert missing[..i + 1] == missing[..i] + [missing[i]];
    ItemsAppend(missing[..i], missing[i], described);
  }

  /** A report section: nothing for an empty list, otherwise the heading, the items and,
      for all but the last section, a blank line. */
  function Section(heading: string, missing: Table, described: bool, blank: bool): seq<string>
  {
    if missing == [] then [] else [heading] + Items(missing, described) + (if blank then [""] else [])
  }

  function Header(rs: Results): seq<string>
  {
    ["Profile: " + Display(rs.name), Text.Repeat('=', 50), "", "Completeness:"]
  }

  /** The lines `report` joins. */
  function ReportLines(rs: Results): seq<string>
    requires ScoresInRange(rs.completeness)
  {
    Header(rs) + ScoreLines(Scores(rs.completeness)) + [""]
    + Section(RequiredHeading, rs.missingRequired, false, true)
    + Section(PersonalHeading, rs.missingPersonal, true, true)
    + Section(RecommendedHeading, rs.missingRecommended, false, false)
  }

  /** The heading lines of a report, in order. */
  function Headings(lines: seq<string>): seq<string>
  {
    Seqs.Filter(lines, IsHeading)
  }

  lemma {:induction false} NoHeadings(lines: seq<string>)
    requires forall i :: 0 <= i < |lines| ==> !IsHeading(lines[i])
    ensures Headings(lines) == []
    decreases |lines|
  {
    if lines != [] {
      assert forall i :: 0 <= i < |lines[1..]| ==> lines[1..][i] == lines[i + 1];
      NoHeadings(lines[1..]);
    }
  }

  lemma HeadingsOfParts(p: seq<string>, a: seq<string>, b: seq<string>, c: seq<string>)
    requires Headings(p) == []
    ensures Headings(p + a + b + c) == Headings(a) + Headings(b) + Headings(c)
  {
    Seqs.FilterAppend(p, a, IsHeading);
    Seqs.FilterAppend(p + a, b, IsHeading);
    Seqs.FilterAppend(p + a + b, c, IsHeading);
  }

  lemma HeadingsOfPreamble(h: seq<string>, s: seq<string>)
    requires Headings(h) == [] && Headings(s) == []
    ensures Headings(h + s + [""]) == []
  {
    NoHeadings([""]);
    Seqs.FilterAppend(h, s, IsHeading);
    Seqs.FilterAppend(h + s, [""], IsHeading);
  }

  lemma {:induction false} ScoreLinesHaveNoHeadings(scores: seq<(string, nat)>)
    requires forall i :: 0 <= i < |scores| ==> scores[i].1 <= 100
    ensures Headings(ScoreLines(scores)) == []
    decreases |scores|
  {
    if scores != [] {
      IndentedIsNotHeading(ScoreLine(scores[0]));
      ScoreLinesHaveNoHeadings(scores[1..]);
      Seqs.FilterAppend([ScoreLine(scores[0])], ScoreLines(scores[1..]), IsHeading);
    }
  }

  lemma {:induction false} ItemsHaveNoHeadings(missing: Table, described: bool)
    ensures Headings(Items(missing, described)) == []
    decreases |missing|
  {
    if missing != [] {
      IndentedIsNotHeading(Item(missing[0], described));
      ItemsHaveNoHeadings(missing[1..], described);
      Seqs.FilterAppend([Item(missing[0], described)], Items(missing[1..], described), IsHeading);
    }
  }

  /** A section contributes its heading when its list is non-empty, and nothing else. */
  lemma SectionHeadings(heading: string, missing: Table, described: bool, blank: bool)
    requires IsHeading(heading)
    ensures Headings(Section(heading, missing, described, blank)) == if missing == [] then [] else [heading]
  {
    if missing != [] {
      ItemsHaveNoHeadings(missing, described);
      var tail: seq<string> := if blank then [""] else [];
      NoHeadings(tail);
      Seqs.FilterAppend([heading], Items(missing, described), IsHeading);
      Seqs.FilterAppend([heading] + Items(missing, described), tail, IsHeading);
    }
  }

  lemma HeaderHasNoHeadings(rs: Results)
    ensures Headings(Header(rs)) == []
  {
    var h := Header(rs);
    assert h[0][0] == 'P' && h[1][0] == '=' && h[3][0] == 'C';
    assert RequiredHeading[0] == 'M' && PersonalHeading[0] == 'M' && RecommendedHeading[0] == 'M';
    NoHeadings(h);
  }

  /** The "Missing ..." headings of a report: the required one when fields are missing,
      then the personal one, then the recommended one, each exactly when its list is
      non-empty. */
  lemma {:induction false} ReportHeadings(rs: Results)
    requires ScoresInRange(rs.completeness)
    ensures Headings(ReportLines(rs))
      == (if rs.missingRequired == [] then [] else [RequiredHeading])
       + (if rs.missingPersonal == [] then [] else [PersonalHeading])
       + (if rs.missingRecommended == [] then [] else [RecommendedHeading])
  {
    var h := Header(rs);
    var s := ScoreLines(Scores(rs.completeness));
    var a := Section(RequiredHeading, rs.missingRequired, false, true);
    var b := Section(PersonalHeading, rs.missingPersonal, true, true);
    var c := Section(RecommendedHeading, rs.missingRecommended, false, false);
    HeaderHasNoHeadings(rs);
    ScoreLinesHaveNoHeadings(Scores(rs.completeness));
    HeadingsOfPreamble(h, s);
    SectionHeadings(RequiredHeading, rs.missingRequired, false, true);
    SectionHeadings(PersonalHeading, rs.missingPersonal, true, true);
    SectionHeadings(RecommendedHeading, rs.missingRecommended, false, false);
    HeadingsOfParts(h + s + [""], a, b, c);
  }

  /** The three headings differ already in length. */
  lemma HeadingLengths()
    ensures |RequiredHeading| == 24 && |PersonalHeading| == 39 && |RecommendedHeading| == 27
  {
  }

  /** Lines whose headings are some of the three, in order, hold exactly those headings. */
  lemma HeadingsPresent(lines: seq<string>, required: bool, personal: bool, recommended: bool)
    requires Headings(lines) == (if required then [RequiredHeading] else []) + (if personal then [PersonalHeading] else [])
                              + (if recommended then [RecommendedHeading] else [])
    ensures RequiredHeading in lines <==> required
    ensures PersonalHeading in lines <==> personal
    ensures RecommendedHeading in lines <==> recommended
  {
    HeadingLengths();
    assert IsHeading(RequiredHeading) && IsHeading(PersonalHeading) && IsHeading(RecommendedHeading);
  }

  /** Hence a heading is in the report exactly when its list is non-empty. */
  lemma ReportSections(rs: Results)
    requires ScoresInRange(rs.completeness)
    ensures RequiredHeading in ReportLines(rs) <==> rs.missingRequired != []
    ensures PersonalHeading in ReportLines(rs) <==> rs.missingPersonal != []
    ensures RecommendedHeading in ReportLines(rs) <==> rs.missingRecommended != []
  {
    ReportHeadings(rs);
    HeadingsPresent(ReportLines(rs), rs.missingRequired != [], rs.missingPersonal != [], rs.missingRecommended != []);
  }

  /** The `results[:completeness].each` loop. */
  method AppendScores(lines: seq<string>, c: Completeness) returns (r: seq<string>)
    requires ScoresInRange(c)
    ensures r == lines + ScoreLines(Scores(c))
  {
    var scores := Scores(c);
    r := lines;
    var i := 0;
    while i < |scores|
      invariant 0 <= i <= |scores|
      invariant r == lines + ScoreLines(scores[..i])
    {
      ScoreLinesPrefixStep(scores, i);
      r := r + [ScoreLine(scores[i])];
      i := i + 1;
    }
    assert scores[..i] == scores;
  }

  /** One `if results[:missing_*].any?` block of `report`. */
  method AppendSection(lines: seq<string>, heading: string, missing: Table, described: bool, blank: bool)
    returns (r: seq<string>)
    ensures r == lines + Section(heading, missing, described, blank)
  {
    r := lines;
    if missing != [] {
      r := r + [heading];
      ghost var top := r;
      var i := 0;
      while i < |missing|
        invariant 0 <= i <= |missing|
        invariant r == top + Items(missing[..i], described)
      {
        ItemsPrefixStep(missing, i, described);
        r := r + [Item(missing[i], described)];
        i := i + 1;
      }
      assert missing[..i] == missing;
      if blank {
        r := r + [""];
      }
    }
  }

  /** The body of `report` after `validate`: builds the lines and joins them. */
  method Render(rs: Results) returns (text: string)
    requires ScoresInRange(rs.completeness)
    ensures text == Text.Join(ReportLines(rs), "\n")
  {
    var lines := ["Profile: " + Display(rs.name), Text.Repeat('=', 50), "", "Completeness:"];
    lines := AppendScores(lines, rs.completeness);
    lines := lines + [""];
    lines := AppendSection(lines, RequiredHeading, rs.missingRequired, false, true);
    lines := AppendSection(lines, PersonalHeading, rs.missingPersonal, true, true);
    lines := AppendSection(lines, RecommendedHeading, rs.missingRecommended, false, false);
    text := Text.Join(lines, "\n");
  }

  /** `report`: the validation's lines joined with newlines; `None` when `validate`
      raises. */
  method Report(profile: Value) returns (r: Option<string>)
    ensures Validation(profile).None? ==> r.None?
    ensures Validation(profile).Some? ==> r == Some(Text.Join(ReportLines(Validation(profile).value), "\n"))
  {
    var results := Validate(profile);
    if results.None? {
      return None;
    }
    var text := Render(results.value);
    r := Some(text);
  }
}
