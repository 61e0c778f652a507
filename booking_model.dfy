/** The booking collection: each booking names an event and an email address. A save
    runs the path validators, then the pre-save hook that looks the event up, then the
    write, which the unique (eventId, email) index can refuse. */
module BookingModel {
  import opened Wrappers
  import opened JsString
  import opened EmailAddress

  type EventId = nat
  type BookingId = nat

  /** A stored booking, after its setters ran. */
  datatype Booking = Booking(eventId: EventId, email: string)

  /** The values assigned to a booking document; a missing eventId is None. */
  datatype BookingInput = BookingInput(eventId: Option<EventId>, email: string)

  datatype BookingField = EventIdField | EmailField

  /** Why a save fails. The first two carry the error name "ValidationError": the
      first is the schema's own validation error, the second the error the pre-save
      hook builds and renames. DuplicateKey is the write refused by the unique index. */
  datatype BookingError =
    | ValidationFailed(fields: set<BookingField>)
    | EventNotFound(eventId: EventId)
    | DuplicateKey

  predicate IsValidationError(e: BookingError) {
    e.ValidationFailed? || e.EventNotFound?
  }

  /** The email setter: trim, then lowercase (ASCII only). */
  function SetEmail(raw: string): (email: string)
    requires IsAscii(raw)
    ensures IsTrimmed(email) && HasNoUpper(email)
  {
    TrimLowerIdempotent(raw);
    TrimLower(raw)
  }

  /** The paths whose validators fail. Both paths are required; the email must in
      addition match the address grammar, which "" never does. */
  function Violations(eventId: Option<EventId>, email: string): (v: set<BookingField>)
    ensures EventIdField in v <==> eventId.None?
    ensures EmailField in v <==> !IsValidEmail(email)
    ensures v == {} <==> eventId.Some? && IsValidEmail(email)
  {
    (if eventId.None? then {EventIdField} else {}) +
    (if IsValidEmail(email) then {} else {EmailField})
  }

  /** Some booking other than `self` already holds the pair (eventId, email). */
  predicate PairTaken(bookings: map<BookingId, Booking>, eventId: EventId, email: string,
                      self: Option<BookingId>)
  {
    exists k :: k in bookings && Some(k) != self &&
      bookings[k].eventId == eventId && bookings[k].email == email
  }

  /** The unique index: no two bookings share a pair. */
  predicate UniquePairs(bookings: map<BookingId, Booking>) {
    forall k, l :: k in bookings && l in bookings && k != l ==>
      bookings[k].eventId != bookings[l].eventId || bookings[k].email != bookings[l].email
  }

  /** Every booking names an existing event. */
  predicate AllReferenced(events: set<EventId>, bookings: map<BookingId, Booking>) {
    forall k :: k in bookings ==> bookings[k].eventId in events
  }

  /** The email is a valid, trimmed, lowercased address. */
  predicate IsStorable(b: Booking) {
    IsValidEmail(b.email) && IsTrimmed(b.email) && HasNoUpper(b.email)
  }

  /** Every stored email is a valid, trimmed, lowercased address. */
  predicate AllEmailsValid(bookings: map<BookingId, Booking>) {
    forall k {:trigger IsStorable(bookings[k])} :: k in bookings ==> IsStorable(bookings[k])
  }

  predicate StoreInvariant(events: set<EventId>, bookings: map<BookingId, Booking>) {
    UniquePairs(bookings) && AllReferenced(events, bookings) && AllEmailsValid(bookings)
  }

  /** Saving a booking document: validation, then the event lookup when `checkEvent`
      holds, then the unique index, which ignores the document's own record `self`. */
  function SaveOutcome(events: set<EventId>, bookings: map<BookingId, Booking>,
                       input: BookingInput, checkEvent: bool, self: Option<BookingId>)
    : (r: Result<Booking, BookingError>)
    requires IsAscii(input.email)
    ensures r.Ok? ==> input.eventId.Some? && r.value == Booking(input.eventId.value, SetEmail(input.email))
    ensures r.Ok? ==> IsStorable(r.value)
    ensures r.Ok? && checkEvent ==> r.value.eventId in events
    ensures r.Ok? ==> !PairTaken(bookings, r.value.eventId, r.value.email, self)
    ensures r.Ok? <==>
      input.eventId.Some? && IsValidEmail(SetEmail(input.email)) &&
      (checkEvent ==> input.eventId.value in events) &&
      !PairTaken(bookings, input.eventId.value, SetEmail(input.email), self)
  {
    var email := SetEmail(input.email);
    var v := Violations(input.eventId, email);
    if v != {} then Err(ValidationFailed(v))
    else if checkEvent && input.eventId.value !in events then Err(EventNotFound(input.eventId.value))
    else if PairTaken(bookings, input.eventId.value, email, self) then Err(DuplicateKey)
    else Ok(Booking(input.eventId.value, email))
  }

  /** Saving a new booking: the event is always looked up. */
  function InsertOutcome(events: set<EventId>, bookings: map<BookingId, Booking>,
                         input: BookingInput): (r: Result<Booking, BookingError>)
    requires IsAscii(input.email)
    ensures r.Ok? ==> input.eventId.Some? && r.value == Booking(input.eventId.value, SetEmail(input.email))
    ensures r.Ok? ==> IsStorable(r.value) && r.value.eventId in events
    ensures r.Ok? ==> !PairTaken(bookings, r.value.eventId, r.value.email, None)
  {
    SaveOutcome(events, bookings, input, true, None)
  }

  /** Saving the stored booking `key` with new values: the event is looked up only
      when the eventId changed. */
  function UpdateOutcome(events: set<EventId>, bookings: map<BookingId, Booking>,
                         key: BookingId, input: BookingInput): (r: Result<Booking, BookingError>)
    requires key in bookings && IsAscii(input.email)
    ensures r.Ok? ==> input.eventId.Some? && r.value == Booking(input.eventId.value, SetEmail(input.email))
    ensures r.Ok? ==> IsStorable(r.value)
    ensures r.Ok? ==> r.value.eventId in events || r.value.eventId == bookings[key].eventId
    ensures r.Ok? ==> !PairTaken(bookings, r.value.eventId, r.value.email, Some(key))
  {
    SaveOutcome(events, bookings, input, input.eventId != Some(bookings[key].eventId), Some(key))
  }

  /** An update succeeds exactly when the eventId is present, the email is a valid
      address after the setter, a changed eventId names an existing event, and no
      other booking holds the pair. */
  lemma UpdateSucceedsIff(events: set<EventId>, bookings: map<BookingId, Booking>,
                          key: BookingId, input: BookingInput)
    requires key in bookings && IsAscii(input.email)
    ensures UpdateOutcome(events, bookings, key, input).Ok? <==>
      input.eventId.Some? && IsValidEmail(SetEmail(input.email)) &&
      (input.eventId.value != bookings[key].eventId ==> input.eventId.value in events) &&
      !PairTaken(bookings, input.eventId.value, SetEmail(input.email), Some(key))
  {
  }

  /** The error a failed update reports, in the order the save runs its steps. A
      changed eventId naming no event always fails with a ValidationError, whatever
      the email; with a valid email it is the hook's EventNotFound. */
  lemma UpdateFailures(events: set<EventId>, bookings: map<BookingId, Booking>,
                       key: BookingId, input: BookingInput)
    requires key in bookings && IsAscii(input.email)
    ensures var r := UpdateOutcome(events, bookings, key, input);
      var email := SetEmail(input.email);
      (!IsValidEmail(email) ==> r.Err? && r.error.ValidationFailed? && EmailField in r.error.fields) &&
      (input.eventId.None? ==> r.Err? && r.error.ValidationFailed? && EventIdField in r.error.fields) &&
      ((input.eventId.Some? && input.eventId.value != bookings[key].eventId &&
        input.eventId.value !in events) ==> r.Err? && IsValidationError(r.error)) &&
      ((input.eventId.Some? && IsValidEmail(email) && input.eventId.value != bookings[key].eventId &&
        input.eventId.value !in events) ==> r == Err(EventNotFound(input.eventId.value))) &&
      ((input.eventId.Some? && IsValidEmail(email) &&
        (input.eventId.value != bookings[key].eventId ==> input.eventId.value in events) &&
        PairTaken(bookings, input.eventId.value, email, Some(key))) ==> r == Err(DuplicateKey)) &&
      (r.Err? && !r.error.DuplicateKey? ==> IsValidationError(r.error))
  {
  }

  /** An insert succeeds exactly when the eventId is present, the email is a valid
      address after the setter, the event exists and the pair is free. */
  lemma InsertSucceedsIff(events: set<EventId>, bookings: map<BookingId, Booking>, input: BookingInput)
    requires IsAscii(input.email)
    ensures InsertOutcome(events, bookings, input).Ok? <==>
      input.eventId.Some? && IsValidEmail(SetEmail(input.email)) &&
      input.eventId.value in events &&
      !PairTaken(bookings, input.eventId.value, SetEmail(input.email), None)
  {
  }

  /** The error a failed insert reports, in the order the save runs its steps. */
  lemma InsertFailures(events: set<EventId>, bookings: map<BookingId, Booking>, input: BookingInput)
    requires IsAscii(input.email)
    ensures var r := InsertOutcome(events, bookings, input);
      var email := SetEmail(input.email);
      (!IsValidEmail(email) ==> r.Err? && r.error.ValidationFailed? && EmailField in r.error.fields) &&
      (input.eventId.None? ==> r.Err? && r.error.ValidationFailed? && EventIdField in r.error.fields) &&
      (input.eventId.Some? && IsValidEmail(email) && input.eventId.value !in events ==>
        r == Err(EventNotFound(input.eventId.value))) &&
      ((input.eventId.Some? && IsValidEmail(email) && input.eventId.value in events &&
        PairTaken(bookings, input.eventId.value, email, None)) ==> r == Err(DuplicateKey)) &&
      (r.Err? && !r.error.DuplicateKey? ==> IsValidationError(r.error))
  {
  }

  /** Re-saving a booking whose eventId is unchanged does not consult the events at all. */
  lemma UnchangedEventSkipsLookup(events: set<EventId>, others: set<EventId>,
                                  bookings: map<BookingId, Booking>, key: BookingId, input: BookingInput)
    requires key in bookings && IsAscii(input.email)
    requires input.eventId == Some(bookings[key].eventId)
    ensures UpdateOutcome(events, bookings, key, input) == UpdateOutcome(others, bookings, key, input)
    ensures !UpdateOutcome(events, bookings, key, input).Err? ||
      !UpdateOutcome(events, bookings, key, input).error.EventNotFound?
  {
  }

  /** Moving a booking to another event fails when that event does not exist. */
  lemma ChangedEventIsLookedUp(events: set<EventId>, bookings: map<BookingId, Booking>,
                               key: BookingId, input: BookingInput)
    requires key in bookings && IsAscii(input.email)
    requires input.eventId.Some? && input.eventId.value != bookings[key].eventId
    requires IsValidEmail(SetEmail(input.email)) && input.eventId.value !in events
    ensures UpdateOutcome(events, bookings, key, input) == Err(EventNotFound(input.eventId.value))
  {
  }

  /** A booking saved again with its own pair does not collide with itself. */
  lemma ResaveDoesNotCollide(events: set<EventId>, bookings: map<BookingId, Booking>, key: BookingId)
    requires StoreInvariant(events, bookings) && key in bookings
    requires IsAscii(bookings[key].email)
    ensures var b := bookings[key];
      UpdateOutcome(events, bookings, key, BookingInput(Some(b.eventId), b.email)) == Ok(b)
  {
    var b := bookings[key];
    assert IsStorable(b);
    assert SetEmail(b.email) == b.email by {
      TrimOfTrimmed(b.email);
      LowerOfLower(b.email);
    }
    assert !PairTaken(bookings, b.eventId, b.email, Some(key));
  }

  /** A successful insert under a fresh key keeps the store invariant. */
  lemma InsertKeepsInvariant(events: set<EventId>, bookings: map<BookingId, Booking>,
                             input: BookingInput, key: BookingId)
    requires StoreInvariant(events, bookings) && IsAscii(input.email) && key !in bookings
    requires InsertOutcome(events, bookings, input).Ok?
    ensures StoreInvariant(events, bookings[key := InsertOutcome(events, bookings, input).value])
  {
    WriteKeepsInvariant(events, bookings, key, InsertOutcome(events, bookings, input).value, None);
  }

  /** A successful update keeps the store invariant. */
  lemma UpdateKeepsInvariant(events: set<EventId>, bookings: map<BookingId, Booking>,
                             key: BookingId, input: BookingInput)
    requires StoreInvariant(events, bookings) && key in bookings && IsAscii(input.email)
    requires UpdateOutcome(events, bookings, key, input).Ok?
    ensures StoreInvariant(events, bookings[key := UpdateOutcome(events, bookings, key, input).value])
  {
    WriteKeepsInvariant(events, bookings, key, UpdateOutcome(events, bookings, key, input).value, Some(key));
  }

  /** Writing b under key keeps the invariant when b is storable, names an event and
      no other record holds its pair. */
  lemma WriteKeepsInvariant(events: set<EventId>, bookings: map<BookingId, Booking>, key: BookingId,
                            b: Booking, self: Option<BookingId>)
    requires StoreInvariant(events, bookings) && IsStorable(b) && b.eventId in events
    requires (self == None && key !in bookings) || self == Some(key)
    requires !PairTaken(bookings, b.eventId, b.email, self)
    ensures StoreInvariant(events, bookings[key := b])
  {
    NewPairKeepsUnique(bookings, key, b, self);
    StorableKept(bookings, key, b);
    ReferencedKept(events, bookings, key, b);
  }

  lemma StorableKept(bookings: map<BookingId, Booking>, key: BookingId, b: Booking)
    requires AllEmailsValid(bookings) && IsStorable(b)
    ensures AllEmailsValid(bookings[key := b])
  {
    var m := bookings[key := b];
    forall k | k in m ensures IsStorable(m[k]) {
      if k != key {
        assert m[k] == bookings[k];
      }
    }
  }

  lemma ReferencedKept(events: set<EventId>, bookings: map<BookingId, Booking>, key: BookingId, b: Booking)
    requires AllReferenced(events, bookings) && b.eventId in events
    ensures AllReferenced(events, bookings[key := b])
  {
  }

  /** Writing b under key keeps pairs unique when no other record holds b's pair. */
  lemma NewPairKeepsUnique(bookings: map<BookingId, Booking>, key: BookingId, b: Booking,
                           self: Option<BookingId>)
    requires UniquePairs(bookings)
    requires (self == None && key !in bookings) || self == Some(key)
    requires !PairTaken(bookings, b.eventId, b.email, self)
    ensures UniquePairs(bookings[key := b])
  {
    var m := bookings[key := b];
    forall k, l | k in m && l in m && k != l
      ensures m[k].eventId != m[l].eventId || m[k].email != m[l].email
    {
      if k == key {
        assert l in bookings && Some(l) != self;
      } else if l == key {
        assert k in bookings && Some(k) != self;
      }
    }
  }

  /** Creating an event keeps the store invariant. */
  lemma AddEventKeepsInvariant(events: set<EventId>, bookings: map<BookingId, Booking>, e: EventId)
    requires StoreInvariant(events, bookings)
    ensures StoreInvariant(events + {e}, bookings)
  {
  }

  /** An updated booking names an existing event: either it was looked up, or it is
      the event the stored record already named. */
  lemma KeptEventExists(events: set<EventId>, bookings: map<BookingId, Booking>, key: BookingId, b: Booking)
    requires AllReferenced(events, bookings) && key in bookings
    requires b.eventId in events || b.eventId == bookings[key].eventId
    ensures b.eventId in events
  {
  }

  /** A key above every existing key is fresh, so writing under it adds exactly one record. */
  lemma FreshKeyAddsOne(bookings: map<BookingId, Booking>, key: BookingId, b: Booking)
    requires forall k :: k in bookings ==> k < key
    ensures key !in bookings && |bookings[key := b]| == |bookings| + 1
  {
  }

  /** Writing an insert's booking under a key above every used key keeps the store
      invariant and adds exactly one record. */
  lemma FreshWriteKeepsValid(events: set<EventId>, bookings: map<BookingId, Booking>,
                             key: BookingId, b: Booking)
    requires StoreInvariant(events, bookings) && forall k :: k in bookings ==> k < key
    requires IsStorable(b) && b.eventId in events && !PairTaken(bookings, b.eventId, b.email, None)
    ensures key !in bookings && |bookings[key := b]| == |bookings| + 1
    ensures StoreInvariant(events, bookings[key := b])
  {
    FreshKeyAddsOne(bookings, key, b);
    WriteKeepsInvariant(events, bookings, key, b, None);
  }

  /** The booking collection together with the ids of the events that exist. */
  class BookingStore {
    var events: set<EventId>
    var bookings: map<BookingId, Booking>
    /** Keys below this bound are taken: new documents get fresh ids. */
    var nextKey: BookingId

    predicate Valid()
      reads this
    {
      StoreInvariant(events, bookings) && forall k :: k in bookings ==> k < nextKey
    }

    constructor()
      ensures Valid() && events == {} && bookings == map[]
    {
      events := {};
      bookings := map[];
      nextKey := 0;
    }

    /** An event document is created. */
    method AddEvent(e: EventId)
      requires Valid()
      modifies this
      ensures Valid()
      ensures events == old(events) + {e} && bookings == old(bookings)
    {
      AddEventKeepsInvariant(events, bookings, e);
      events := events + {e};
    }

    /** Booking.create(input): on success the store gains exactly the new record under
        a fresh id; on failure nothing changes. */
    method Insert(input: BookingInput) returns (r: Result<BookingId, BookingError>)
      requires Valid() && IsAscii(input.email)
      modifies this
      ensures Valid() && events == old(events)
      ensures var o := InsertOutcome(old(events), old(bookings), input);
        (o.Err? ==> r == Err(o.error) && bookings == old(bookings)) &&
        (o.Ok? ==>
          r.Ok? && r.value !in old(bookings) &&
          bookings == old(bookings)[r.value := o.value] && |bookings| == |old(bookings)| + 1)
    {
      var o := InsertOutcome(events, bookings, input);
      if o.Err? {
        return Err(o.error);
      }
      FreshWriteKeepsValid(events, bookings, nextKey, o.value);
      bookings := bookings[nextKey := o.value];
      r := Ok(nextKey);
      nextKey := nextKey + 1;
    }

    /** Assigning new values to the stored booking `key` and saving it: on failure,
        nothing changes; on success only that record changes. */
    method Update(key: BookingId, input: BookingInput) returns (r: Outcome<BookingError>)
      requires Valid() && key in bookings && IsAscii(input.email)
      modifies this
      ensures Valid() && events == old(events)
      ensures var o := UpdateOutcome(old(events), old(bookings), key, input);
        (o.Err? ==> r == Fail(o.error) && bookings == old(bookings)) &&
        (o.Ok? ==> r == Pass && bookings == old(bookings)[key := o.value])
    {
      var o := UpdateOutcome(events, bookings, key, input);
      if o.Err? {
        return Fail(o.error);
      }
      ghost var before := bookings;
      KeptEventExists(events, bookings, key, o.value);
      bookings := bookings[key := o.value];
      r := Pass;
      WriteKeepsInvariant(events, before, key, o.value, Some(key));
    }
  }
}
