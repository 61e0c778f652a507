/** The event schema: its setters, its validators, and the pre-save hook that derives
    the slug and canonicalises the date and the time, on a document object that
    Mongoose saves in three phases (validate, run the hook, write). */
module EventModel {
  import opened Wrappers
  import opened JsString
  import opened Slugify
  import opened TimeFormat

  /** The schema's paths; isModified and the validation error speak of these. */
  datatype Path =
    | Title | Slug | Description | Overview | Image | Venue | Location
    | Date | Time | Mode | Audience | Agenda | Organizer | Tags

  /** Every path the caller supplies when an event is created (all but the derived slug). */
  const InputPaths: set<Path> :=
    {Title, Description, Overview, Image, Venue, Location, Date, Time, Mode, Audience, Agenda, Organizer, Tags}

  const AllPaths: set<Path> := InputPaths + {Slug}

  /** The values the enum validator of `mode` allows. */
  const Modes: seq<string> := ["Online", "Offline", "Hybrid"]

  const TitleMaxLength: nat := 100
  const DescriptionMaxLength: nat := 1000
  const OverviewMaxLength: nat := 500

  /** The values a document holds, one per path. */
  datatype EventFields = EventFields(
    title: string, slug: string, description: string, overview: string, image: string,
    venue: string, location: string, date: string, time: string, mode: string,
    audience: string, agenda: seq<string>, organizer: string, tags: seq<string>)

  /** The values a caller hands to the model when it creates an event. A missing value
      is the empty string or the empty list. */
  datatype EventInput = EventInput(
    title: string, description: string, overview: string, image: string,
    venue: string, location: string, date: string, time: string, mode: string,
    audience: string, agenda: seq<string>, organizer: string, tags: seq<string>)

  /** The stored value of a path declared with `trim: true`. */
  function TrimSetter(s: string): (r: string)
    ensures IsTrimmed(r)
  {
    Trim(s)
  }

  /** The document the constructor builds: every `trim: true` path holds its trimmed
      value, every other path the value given; the slug is not yet derived. */
  function ApplySetters(i: EventInput): (f: EventFields)
    ensures IsTrimmed(f.title) && IsTrimmed(f.description) && IsTrimmed(f.overview)
    ensures IsTrimmed(f.image) && IsTrimmed(f.venue) && IsTrimmed(f.location) && IsTrimmed(f.organizer)
    ensures f.date == i.date && f.time == i.time && f.mode == i.mode && f.audience == i.audience
    ensures f.agenda == i.agenda && f.tags == i.tags && f.slug == ""
  {
    EventFields(
      TrimSetter(i.title), "", TrimSetter(i.description), TrimSetter(i.overview), TrimSetter(i.image),
      TrimSetter(i.venue), TrimSetter(i.location), i.date, i.time, i.mode,
      i.audience, i.agenda, TrimSetter(i.organizer), i.tags)
  }

  /** The `required` validator of a string path: the value must be non-empty. */
  predicate Present(s: string) {
    |s| > 0
  }

  /** Whether the validators declared on path p reject the document's value there:
      `required`, `maxlength` (in UTF-16 code units), the `mode` enum, and the
      non-empty validators of `agenda` and `tags`. The slug has no validator. */
  predicate Rejects(f: EventFields, p: Path) {
    match p
    case Title => !Present(f.title) || Utf16Length(f.title) > TitleMaxLength
    case Slug => false
    case Description => !Present(f.description) || Utf16Length(f.description) > DescriptionMaxLength
    case Overview => !Present(f.overview) || Utf16Length(f.overview) > OverviewMaxLength
    case Image => !Present(f.image)
    case Venue => !Present(f.venue)
    case Location => !Present(f.location)
    case Date => !Present(f.date)
    case Time => !Present(f.time)
    case Mode => f.mode !in Modes
    case Audience => !Present(f.audience)
    case Agenda => |f.agenda| == 0
    case Organizer => !Present(f.organizer)
    case Tags => |f.tags| == 0
  }

  /** The paths a ValidationError lists: Mongoose runs every validator and reports
      each path that fails. */
  function Violations(f: EventFields): (v: set<Path>)
    ensures forall p :: p in v <==> Rejects(f, p)
  {
    EveryPathIsListed();
    set p | p in AllPaths && Rejects(f, p)
  }

  lemma EveryPathIsListed()
    ensures forall p :: p in AllPaths
  {
    forall p ensures p in AllPaths {
      match p
      case Title => case Slug => case Description => case Overview => case Image =>
      case Venue => case Location => case Date => case Time => case Mode =>
      case Audience => case Agenda => case Organizer => case Tags =>
    }
  }

  /** The document rules stated one by one. */
  predicate FollowsSchema(f: EventFields) {
    f.mode in Modes && |f.agenda| > 0 && |f.tags| > 0 &&
    0 < Utf16Length(f.title) <= TitleMaxLength &&
    0 < Utf16Length(f.description) <= DescriptionMaxLength &&
    0 < Utf16Length(f.overview) <= OverviewMaxLength &&
    Present(f.image) && Present(f.venue) && Present(f.location) && Present(f.date) &&
    Present(f.time) && Present(f.audience) && Present(f.organizer)
  }

  /** Validation passes exactly when every document rule holds. */
  lemma ValidationMeansSchema(f: EventFields)
    ensures Violations(f) == {} <==> FollowsSchema(f)
  {
    if Violations(f) == {} {
      assert !Rejects(f, Title) && !Rejects(f, Description) && !Rejects(f, Overview);
      assert !Rejects(f, Image) && !Rejects(f, Venue) && !Rejects(f, Location) && !Rejects(f, Date);
      assert !Rejects(f, Time) && !Rejects(f, Mode) && !Rejects(f, Audience) && !Rejects(f, Agenda);
      assert !Rejects(f, Organizer) && !Rejects(f, Tags);
    } else {
      var p :| p in Violations(f);
      assert Rejects(f, p);
    }
  }

  /** The length caps apply to the trimmed value: whitespace around a title, a
      description or an overview never makes it fail or pass. */
  lemma CapsApplyAfterTrim(i: EventInput, p: string, q: string)
    requires AllWhitespace(p) && AllWhitespace(q)
    ensures ApplySetters(i.(title := p + i.title + q)) == ApplySetters(i.(title := Trim(i.title)))
    ensures ApplySetters(i.(description := p + i.description + q)) == ApplySetters(i.(description := Trim(i.description)))
    ensures ApplySetters(i.(overview := p + i.overview + q)) == ApplySetters(i.(overview := Trim(i.overview)))
  {
    PaddingIsTrimmed(p, i.title, q);
    PaddingIsTrimmed(p, i.description, q);
    PaddingIsTrimmed(p, i.overview, q);
  }

  lemma PaddingIsTrimmed(p: string, s: string, q: string)
    requires AllWhitespace(p) && AllWhitespace(q)
    ensures TrimSetter(p + s + q) == TrimSetter(Trim(s))
  {
    TrimAbsorbsPadding(p, s, q);
    TrimOfTrimmed(Trim(s));
  }

  /** What saving can fail with: a ValidationError listing the failing paths, or the
      error thrown by normalizeDate or normalizeTime inside the pre-save hook. */
  datatype SaveError =
    | ValidationFailed(paths: set<Path>)
    | InvalidDate
    | InvalidTime(cause: TimeError)

  /** The value the slug path stores when the hook assigns generateSlug(title) to it:
      the slug's own `trim`/`lowercase` setters leave a generated slug alone. */
  lemma SlugSetterKeepsSlug(title: string)
    requires IsAscii(title)
    ensures TrimLower(GenerateSlug(title)) == GenerateSlug(title)
  {
    StagesFixSlug(GenerateSlug(title));
  }

  /** Lines 113-115 of the hook: a new document or a changed title gets the slug
      derived from its title; otherwise the document is left as it is. */
  function SlugStep(f: EventFields, isNew: bool, modified: set<Path>): (g: EventFields)
    requires IsAscii(f.title)
    ensures isNew || Title in modified ==> g == f.(slug := GenerateSlug(f.title)) && IsSlug(g.slug)
    ensures !isNew && Title !in modified ==> g == f
  {
    SlugSetterKeepsSlug(f.title);
    if Title in modified || isNew then f.(slug := TrimLower(GenerateSlug(f.title))) else f
  }

  /** Lines 117-119: a changed date is replaced by what normalizeDate makes of it, or
      the hook fails. */
  function DateStep(f: EventFields, modified: set<Path>, parseDate: string -> Option<string>): (r: Result<EventFields, SaveError>)
    ensures Date !in modified ==> r == Ok(f)
    ensures Date in modified && parseDate(f.date).None? ==> r == Err(InvalidDate)
    ensures Date in modified && parseDate(f.date).Some? ==> r == Ok(f.(date := parseDate(f.date).value))
  {
    if Date in modified then
      match parseDate(f.date)
      case None => Err(InvalidDate)
      case Some(d) => Ok(f.(date := d))
    else Ok(f)
  }

  /** Lines 121-123: a changed time is replaced by its canonical HH:MM form, or the
      hook fails with normalizeTime's error. */
  function TimeStep(f: EventFields, modified: set<Path>): (r: Result<EventFields, SaveError>)
    ensures Time !in modified ==> r == Ok(f)
    ensures r.Ok? && Time in modified ==> IsCanonicalTime(r.value.time) && NormalizeTime(f.time) == Ok(r.value.time)
    ensures r.Ok? ==> r.value.(time := f.time) == f
    ensures r.Err? ==> Time in modified && NormalizeTime(f.time).Err? && r.error == InvalidTime(NormalizeTime(f.time).error)
  {
    if Time in modified then
      match NormalizeTime(f.time)
      case Err(e) => Err(InvalidTime(e))
      case Ok(t) => Ok(f.(time := t))
    else Ok(f)
  }

  /** The hook's three steps in order; the first error stops it. */
  function HookOutcome(f: EventFields, isNew: bool, modified: set<Path>, parseDate: string -> Option<string>): Result<EventFields, SaveError>
    requires IsAscii(f.title)
  {
    match DateStep(SlugStep(f, isNew, modified), modified, parseDate)
    case Err(e) => Err(e)
    case Ok(g) => TimeStep(g, modified)
  }

  /** The values the document holds in memory once the hook has run: a throw keeps the
      assignments made before it. When the hook passes these are its result. */
  function AfterHook(f: EventFields, isNew: bool, modified: set<Path>, parseDate: string -> Option<string>): (g: EventFields)
    requires IsAscii(f.title)
    ensures HookOutcome(f, isNew, modified, parseDate).Ok? ==> g == HookOutcome(f, isNew, modified, parseDate).value
    ensures g.(slug := f.slug, date := f.date, time := f.time) == f
  {
    var s := SlugStep(f, isNew, modified);
    match DateStep(s, modified, parseDate)
    case Err(_) => s
    case Ok(h) =>
      match TimeStep(h, modified)
      case Err(_) => h
      case Ok(k) => k
  }

  /** What saving a document with values f makes of it: validation first; then the
      hook; the written values when both pass. */
  function SaveOutcome(f: EventFields, isNew: bool, modified: set<Path>, parseDate: string -> Option<string>): Result<EventFields, SaveError>
    requires IsAscii(f.title)
  {
    var failed := Violations(f);
    if failed != {} then Err(ValidationFailed(failed)) else HookOutcome(f, isNew, modified, parseDate)
  }

  /** A saved document follows every rule of the schema except, possibly, `date`,
      whose stored value is whatever normalizeDate returned. */
  lemma SavedFollowsSchema(f: EventFields, isNew: bool, modified: set<Path>, parseDate: string -> Option<string>)
    requires IsAscii(f.title)
    requires SaveOutcome(f, isNew, modified, parseDate).Ok?
    ensures FollowsSchema(SaveOutcome(f, isNew, modified, parseDate).value.(date := f.date))
  {
    ValidationMeansSchema(f);
  }

  /** The recomputation rule: the slug is derived from the title exactly when the
      document is new or its title changed; the date and the time are normalised
      exactly when they changed; no other path is touched. */
  lemma SaveRecomputesChangedPaths(f: EventFields, isNew: bool, modified: set<Path>, parseDate: string -> Option<string>)
    requires IsAscii(f.title)
    requires SaveOutcome(f, isNew, modified, parseDate).Ok?
    ensures var g := SaveOutcome(f, isNew, modified, parseDate).value;
      g.(slug := f.slug, date := f.date, time := f.time) == f &&
      (isNew || Title in modified ==> g.slug == GenerateSlug(f.title) && IsSlug(g.slug)) &&
      (!isNew && Title !in modified ==> g.slug == f.slug) &&
      (Date in modified ==> parseDate(f.date) == Some(g.date)) &&
      (Date !in modified ==> g.date == f.date) &&
      (Time in modified ==> NormalizeTime(f.time) == Ok(g.time) && IsCanonicalTime(g.time)) &&
      (Time !in modified ==> g.time == f.time)
  {
  }

  /** Saving fails with the first error in Mongoose's order: the validation error
      listing every failing path; otherwise normalizeDate's error for a changed date
      it cannot parse; otherwise normalizeTime's error for a changed time. */
  lemma SaveFailures(f: EventFields, isNew: bool, modified: set<Path>, parseDate: string -> Option<string>)
    requires IsAscii(f.title)
    ensures Violations(f) != {} ==> SaveOutcome(f, isNew, modified, parseDate) == Err(ValidationFailed(Violations(f)))
    ensures Violations(f) == {} && Date in modified && parseDate(f.date).None? ==>
      SaveOutcome(f, isNew, modified, parseDate) == Err(InvalidDate)
    ensures (Violations(f) == {} && (Date !in modified || parseDate(f.date).Some?) &&
             Time in modified && NormalizeTime(f.time).Err?) ==>
      SaveOutcome(f, isNew, modified, parseDate) == Err(InvalidTime(NormalizeTime(f.time).error))
    ensures SaveOutcome(f, isNew, modified, parseDate).Ok? <==>
      Violations(f) == {} && (Date !in modified || parseDate(f.date).Some?) &&
      (Time !in modified || NormalizeTime(f.time).Ok?)
  {
    var g := SlugStep(f, isNew, modified);
    assert g.date == f.date;
    if Date in modified && parseDate(f.date).Some? {
      assert DateStep(g, modified, parseDate).value.time == f.time;
    }
  }

  /** Saving a document that was just written, with nothing changed, writes it again
      unchanged, provided normalizeDate did not return the empty string. */
  lemma ResaveChangesNothing(f: EventFields, isNew: bool, modified: set<Path>, parseDate: string -> Option<string>)
    requires IsAscii(f.title)
    requires SaveOutcome(f, isNew, modified, parseDate).Ok?
    requires Date in modified ==> parseDate(f.date) != Some([])
    ensures IsAscii(SaveOutcome(f, isNew, modified, parseDate).value.title)
    ensures var g := SaveOutcome(f, isNew, modified, parseDate).value;
      SaveOutcome(g, false, {}, parseDate) == Ok(g)
  {
    var g := SaveOutcome(f, isNew, modified, parseDate).value;
    ValidationMeansSchema(f);
    SaveRecomputesChangedPaths(f, isNew, modified, parseDate);
    assert Present(g.time) by {
      if Time in modified { assert IsCanonicalTime(g.time); }
    }
    ValidationMeansSchema(g);
  }

  /** What the setters and a successful save guarantee: the trimmed paths hold trimmed
      text; a new document has every input path marked modified; and a written
      document's slug and time stay derived until the title or the time is changed. */
  predicate DocumentInvariant(f: EventFields, isNew: bool, modified: set<Path>) {
    IsAscii(f.title) &&
    IsTrimmed(f.title) && IsTrimmed(f.description) && IsTrimmed(f.overview) && IsTrimmed(f.image) &&
    IsTrimmed(f.venue) && IsTrimmed(f.location) && IsTrimmed(f.organizer) &&
    (isNew ==> InputPaths <= modified) &&
    (!isNew && Title !in modified ==> f.slug == GenerateSlug(f.title)) &&
    (!isNew && Time !in modified ==> IsCanonicalTime(f.time))
  }

  /** Assigning a new value to the title, the date or the time keeps the invariant,
      provided the path is marked modified when its value changes. */
  lemma AssignmentKeepsInvariant(f: EventFields, isNew: bool, modified: set<Path>, g: EventFields, modified': set<Path>, p: Path)
    requires DocumentInvariant(f, isNew, modified)
    requires p == Title || p == Date || p == Time
    requires p == Title ==> g == f.(title := g.title) && IsAscii(g.title) && IsTrimmed(g.title)
    requires p == Date ==> g == f.(date := g.date)
    requires p == Time ==> g == f.(time := g.time)
    requires modified' == modified + {p} || (modified' == modified && g == f)
    ensures DocumentInvariant(g, isNew, modified')
  {
  }

  /** A successful save turns a document satisfying the invariant into a written one
      (not new, nothing modified) that satisfies it. */
  lemma SaveKeepsInvariant(f: EventFields, isNew: bool, modified: set<Path>, parseDate: string -> Option<string>)
    requires DocumentInvariant(f, isNew, modified)
    requires SaveOutcome(f, isNew, modified, parseDate).Ok?
    ensures DocumentInvariant(SaveOutcome(f, isNew, modified, parseDate).value, false, {})
  {
    SaveRecomputesChangedPaths(f, isNew, modified, parseDate);
  }

  /** Once validation passes, saving is the hook, and a hook that passes leaves the
      written document satisfying the invariant. */
  lemma ValidatedSaveIsHook(f: EventFields, isNew: bool, modified: set<Path>, parseDate: string -> Option<string>)
    requires DocumentInvariant(f, isNew, modified) && Violations(f) == {}
    ensures SaveOutcome(f, isNew, modified, parseDate) == HookOutcome(f, isNew, modified, parseDate)
    ensures HookOutcome(f, isNew, modified, parseDate).Ok? ==>
      DocumentInvariant(HookOutcome(f, isNew, modified, parseDate).value, false, {})
  {
    if HookOutcome(f, isNew, modified, parseDate).Ok? {
      SaveKeepsInvariant(f, isNew, modified, parseDate);
    }
  }

  /** The hook keeps the invariant whether or not it throws: the assignments it makes
      only derive the slug and normalise a modified date or time. */
  lemma HookKeepsInvariant(f: EventFields, isNew: bool, modified: set<Path>, parseDate: string -> Option<string>)
    requires DocumentInvariant(f, isNew, modified)
    ensures DocumentInvariant(AfterHook(f, isNew, modified, parseDate), isNew, modified)
  {
  }

  /** An event document. The path values are fields the hook and the setters update in
      place; `isNew` and `modified` are the state behind isNew and isModified(path). */
  class EventDocument {
    var title: string
    var slug: string
    var description: string
    var overview: string
    var image: string
    var venue: string
    var location: string
    var date: string
    var time: string
    var mode: string
    var audience: string
    var agenda: seq<string>
    var organizer: string
    var tags: seq<string>
    var isNew: bool
    var modified: set<Path>

    function Fields(): EventFields
      reads this
    {
      EventFields(title, slug, description, overview, image, venue, location, date, time, mode,
        audience, agenda, organizer, tags)
    }

    /** The document's state satisfies the invariant of the schema's setters and hook. */
    predicate Valid()
      reads this
    {
      DocumentInvariant(Fields(), isNew, modified)
    }

    /** `new Event(input)`: the setters run on every given value; the document is new. */
    constructor(input: EventInput)
      requires IsAscii(input.title)
      ensures Valid()
      ensures Fields() == ApplySetters(input)
      ensures isNew && modified == InputPaths
    {
      TrimKeepsAscii(input.title);
      var f := ApplySetters(input);
      title, slug, description, overview, image := f.title, f.slug, f.description, f.overview, f.image;
      venue, location, date, time, mode := f.venue, f.location, f.date, f.time, f.mode;
      audience, agenda, organizer, tags := f.audience, f.agenda, f.organizer, f.tags;
      isNew := true;
      modified := InputPaths;
    }

    /** `event.title = raw`: the trim setter runs, and the path counts as modified only
        when the stored value actually changes. */
    method SetTitle(raw: string)
      requires Valid() && IsAscii(raw)
      modifies this
      ensures Valid()
      ensures Fields() == old(Fields()).(title := TrimSetter(raw))
      ensures modified == old(modified) + (if TrimSetter(raw) != old(title) then {Title} else {})
      ensures isNew == old(isNew)
    {
      TrimKeepsAscii(raw);
      var v := TrimSetter(raw);
      ghost var f, m := Fields(), modified;
      if v != title {
        modified := modified + {Title};
      }
      title := v;
      AssignmentKeepsInvariant(f, isNew, m, Fields(), modified, Title);
    }

    /** `event.date = raw`; the date path has no setter. */
    method SetDate(raw: string)
      requires Valid()
      modifies this
      ensures Valid()
      ensures Fields() == old(Fields()).(date := raw)
      ensures modified == old(modified) + (if raw != old(date) then {Date} else {})
      ensures isNew == old(isNew)
    {
      ghost var f, m := Fields(), modified;
      if raw != date {
        modified := modified + {Date};
      }
      date := raw;
      AssignmentKeepsInvariant(f, isNew, m, Fields(), modified, Date);
    }

    /** `event.time = raw`; the time path has no setter. */
    method SetTime(raw: string)
      requires Valid()
      modifies this
      ensures Valid()
      ensures Fields() == old(Fields()).(time := raw)
      ensures modified == old(modified) + (if raw != old(time) then {Time} else {})
      ensures isNew == old(isNew)
    {
      ghost var f, m := Fields(), modified;
      if raw != time {
        modified := modified + {Time};
      }
      time := raw;
      AssignmentKeepsInvariant(f, isNew, m, Fields(), modified, Time);
    }

    /** Lines 113-115: the slug assignment, through the slug's own setters. */
    method DeriveSlug()
      requires Valid()
      modifies this
      ensures Valid()
      ensures Fields() == SlugStep(old(Fields()), old(isNew), old(modified))
      ensures unchanged(`isNew, `modified)
    {
      if Title in modified || isNew {
        var generated := GenerateSlug(title);
        slug := TrimLower(generated);
      }
    }

    /** Lines 117-119: a modified date is replaced by normalizeDate's result. */
    method NormalizeDate(parseDate: string -> Option<string>) returns (outcome: Outcome<SaveError>)
      requires Valid()
      modifies this
      ensures Valid()
      ensures var r := DateStep(old(Fields()), old(modified), parseDate);
        (r.Err? ==> outcome == Fail(r.error) && Fields() == old(Fields())) &&
        (r.Ok? ==> outcome == Pass && Fields() == r.value)
      ensures isNew == old(isNew) && modified == old(modified)
    {
      outcome := Pass;
      if Date in modified {
        var parsed := parseDate(date);
        if parsed.None? {
          return Fail(InvalidDate);
        }
        date := parsed.value;
      }
    }

    /** Lines 121-123: a modified time is replaced by normalizeTime's result. */
    method NormalizeTimePath() returns (outcome: Outcome<SaveError>)
      requires Valid()
      modifies this
      ensures Valid()
      ensures var r := TimeStep(old(Fields()), old(modified));
        (r.Err? ==> outcome == Fail(r.error) && Fields() == old(Fields())) &&
        (r.Ok? ==> outcome == Pass && Fields() == r.value)
      ensures isNew == old(isNew) && modified == old(modified)
    {
      outcome := Pass;
      if Time in modified {
        var normalized := NormalizeTime(time);
        if normalized.Err? {
          return Fail(InvalidTime(normalized.error));
        }
        time := normalized.value;
      }
    }

    /** The pre-save hook, lines 110-126. Its three assignments happen in order, and a
        throw leaves the earlier ones in place. */
    method PreSave(parseDate: string -> Option<string>) returns (outcome: Outcome<SaveError>)
      requires Valid()
      modifies this
      ensures Valid()
      ensures unchanged(`isNew, `modified)
      ensures Fields() == AfterHook(old(Fields()), old(isNew), old(modified), parseDate)
      ensures var r := HookOutcome(old(Fields()), old(isNew), old(modified), parseDate);
        outcome == if r.Ok? then Pass else Fail(r.error)
    {
      HookKeepsInvariant(Fields(), isNew, modified, parseDate);
      DeriveSlug();
      outcome := NormalizeDate(parseDate);
      if outcome.Fail? {
        return;
      }
      outcome := NormalizeTimePath();
    }

    /** `event.save()`: validation, then the hook, then the write, after which the
        document is no longer new and no path counts as modified. A validation error
        changes nothing; an error in the hook keeps the hook's earlier assignments. */
    method Save(parseDate: string -> Option<string>) returns (outcome: Outcome<SaveError>)
      requires Valid()
      modifies this
      ensures Valid()
      ensures var r := SaveOutcome(old(Fields()), old(isNew), old(modified), parseDate);
        outcome == (if r.Ok? then Pass else Fail(r.error)) &&
        (r.Ok? ==> Fields() == r.value && !isNew && modified == {})
      ensures outcome.Fail? ==> isNew == old(isNew) && modified == old(modified)
      ensures Violations(old(Fields())) != {} ==> Fields() == old(Fields())
      ensures Violations(old(Fields())) == {} ==> Fields() == AfterHook(old(Fields()), old(isNew), old(modified), parseDate)
    {
      var failed := Violations(Fields());
      if failed != {} {
        return Fail(ValidationFailed(failed));
      }
      ghost var f, n, m := Fields(), isNew, modified;
      ValidatedSaveIsHook(f, n, m, parseDate);
      outcome := PreSave(parseDate);
      if outcome.Pass? {
        ghost var g := Fields();
        assert g == HookOutcome(f, n, m, parseDate).value;
        isNew := false;
        modified := {};
        assert Fields() == g;
      }
    }
  }
}
