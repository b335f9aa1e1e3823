/** The public cancellation flow: the page a cancellation link opens, and
    the confirmation that marks the appointment as cancelled. */
module Cancellation {
  import opened Text
  import opened Clock
  import opened Models
  import Booking
  import Slots

  /** What the cancellation link shows. */
  datatype CancelView =
    | InvalidLink             // no appointment holds the token
    | AlreadyPassed           // the appointment's date is before today
    | AlreadyCancelled        // the appointment is cancelled already
    | Prompt(index: nat)      // the confirmation form for row `index`

  /** `annuler_rdv_public(token)`; `today` is the server's current date. */
  function CancelPage(rows: seq<Row>, token: string, today: Date): CancelView
  {
    match FindByToken(rows, token)
    case None => InvalidLink
    case Some(i) =>
      if rows[i].date.Before(today) then AlreadyPassed
      else if rows[i].statut == Annule then AlreadyCancelled
      else Prompt(i)
  }

  /** How the confirmation ends: 404 for an unknown token, success, or an
      error raised after the status change was committed. */
  datatype CancelOutcome = NotFound | Cancelled | CancelError

  datatype CancelResult = CancelResult(outcome: CancelOutcome, state: State)

  /** `confirmer_annulation(token)`: the row holding the token becomes
      cancelled, whatever its date and status, and the change is committed.
      The notification step then reads the patient (an error if the row
      names no stored patient) and, when the patient has an email, the
      doctor's name (an error if the doctor lookup yields nothing). */
  function ConfirmCancel(st: State, token: string): CancelResult
  {
    match FindByToken(st.rows, token)
    case None => CancelResult(NotFound, st)
    case Some(i) =>
      var st1 := st.(rows := st.rows[i := st.rows[i].(statut := Annule)]);
      match PatientById(st.patients, st.rows[i].patientId)
      case None => CancelResult(CancelError, st1)
      case Some(p) =>
        if Truthy(p.email) && st.rows[i].medecinId !in st.users then CancelResult(CancelError, st1)
        else CancelResult(Cancelled, st1)
  }

  // ---------------------------------------------------------------------
  // The cancellation page.

  /** The page's four outcomes, in the order the handler tests them: an
      unknown token, then a past date (even for a cancelled appointment),
      then a cancelled status; otherwise the form for the row holding the
      token. */
  lemma CancelPageCases(rows: seq<Row>, token: string, today: Date)
    ensures var v := CancelPage(rows, token, today);
      && (v == InvalidLink <==> forall j :: 0 <= j < |rows| ==> rows[j].annulationToken != token)
      && (v != InvalidLink ==> FindByToken(rows, token).Some?)
      && (v == AlreadyPassed <==> FindByToken(rows, token).Some? && rows[FindByToken(rows, token).value].date.Before(today))
      && (v == AlreadyCancelled <==>
            (&& FindByToken(rows, token).Some?
             && !rows[FindByToken(rows, token).value].date.Before(today)
             && rows[FindByToken(rows, token).value].statut == Annule))
      && (v.Prompt? ==>
            (&& v.index < |rows| && rows[v.index].annulationToken == token
             && !rows[v.index].date.Before(today) && rows[v.index].statut != Annule))
  {
    match FindByToken(rows, token)
    case None =>
    case Some(i) =>
      assert rows[i].annulationToken == token;
  }

  /** An appointment dated today is still offered for cancellation; the
      page refuses only dates strictly before today. */
  lemma TodayIsNotPassed(rows: seq<Row>, token: string, today: Date, i: nat)
    requires UniqueTokens(rows)
    requires i < |rows| && rows[i].annulationToken == token && rows[i].date == today
    requires rows[i].statut != Annule
    ensures CancelPage(rows, token, today) == Prompt(i)
  {
    TokenNamesOneRow(rows, token, i);
  }

  // ---------------------------------------------------------------------
  // The confirmation.

  /** An unknown token changes nothing.  Otherwise exactly the row holding
      the token is cancelled: same length, that row's other columns kept,
      every other row and every other table untouched. */
  lemma ConfirmCancelEffect(st: State, token: string)
    ensures var r := ConfirmCancel(st, token);
      && (r.outcome == NotFound <==> forall j :: 0 <= j < |st.rows| ==> st.rows[j].annulationToken != token)
      && (r.outcome == NotFound ==> r.state == st)
      && r.state.clinics == st.clinics && r.state.users == st.users
      && r.state.patients == st.patients && r.state.availabilities == st.availabilities
      && |r.state.rows| == |st.rows|
      && (r.outcome != NotFound ==>
            var i := FindByToken(st.rows, token).value;
            && r.state.rows[i] == st.rows[i].(statut := Annule)
            && (forall j :: 0 <= j < |st.rows| && j != i ==> r.state.rows[j] == st.rows[j]))
  {
    match FindByToken(st.rows, token)
    case None =>
    case Some(i) =>
      assert st.rows[i].annulationToken == token;
  }

  /** Confirming twice is confirming once: the second call finds the same
      row, already cancelled, and leaves the database as the first left it. */
  lemma ConfirmCancelIdempotent(st: State, token: string)
    ensures ConfirmCancel(ConfirmCancel(st, token).state, token).state == ConfirmCancel(st, token).state
  {
    ConfirmCancelEffect(st, token);
    var st1 := ConfirmCancel(st, token).state;
    match FindByToken(st.rows, token)
    case None =>
    case Some(i) =>
      forall j | 0 <= j < |st1.rows| ensures st1.rows[j].annulationToken == st.rows[j].annulationToken {
      }
      FindByTokenSameTokens(st.rows, st1.rows, token);
      assert st1.rows[i := st1.rows[i].(statut := Annule)] == st1.rows;
  }

  /** The lookup depends only on the token column. */
  lemma {:induction false} FindByTokenSameTokens(rows: seq<Row>, rows2: seq<Row>, token: string)
    requires |rows| == |rows2|
    requires forall j :: 0 <= j < |rows| ==> rows[j].annulationToken == rows2[j].annulationToken
    ensures FindByToken(rows, token) == FindByToken(rows2, token)
  {
    if |rows| > 0 && rows[0].annulationToken != token {
      FindByTokenSameTokens(rows[1..], rows2[1..], token);
    }
  }

  /** Cancelling keeps the database valid: statuses take no part in the
      storage constraints or in the patient references. */
  lemma ConfirmCancelKeepsValid(st: State, token: string)
    requires ValidState(st)
    ensures ValidState(ConfirmCancel(st, token).state)
  {
    ConfirmCancelEffect(st, token);
    var st1 := ConfirmCancel(st, token).state;
    if st1 != st {
      var i := FindByToken(st.rows, token).value;
      forall j | 0 <= j < |st.rows|
        ensures SameSlot(st1.rows[j], st.rows[j]) && st1.rows[j].annulationToken == st.rows[j].annulationToken
        ensures st1.rows[j].patientId == st.rows[j].patientId
      {
      }
      forall a, b | 0 <= a < b < |st1.rows| ensures !SameSlot(st1.rows[a], st1.rows[b]) {
        assert !SameSlot(st.rows[a], st.rows[b]);
      }
    }
  }

  /** Once confirmed, the link never offers the form again: it shows the
      appointment as passed or as already cancelled. */
  lemma ConfirmedLinkNoLongerPrompts(st: State, token: string, today: Date)
    requires ConfirmCancel(st, token).outcome != NotFound
    ensures var v := CancelPage(ConfirmCancel(st, token).state.rows, token, today);
      v == AlreadyPassed || v == AlreadyCancelled
  {
    ConfirmCancelEffect(st, token);
    var st1 := ConfirmCancel(st, token).state;
    forall j | 0 <= j < |st1.rows| ensures st1.rows[j].annulationToken == st.rows[j].annulationToken {
    }
    FindByTokenSameTokens(st.rows, st1.rows, token);
  }

  /** On a valid database the confirmation fails only in its notification
      step, when the patient has an email and the doctor lookup yields
      nothing; the appointment is cancelled all the same. */
  lemma CancelErrorIff(st: State, token: string)
    requires ValidState(st)
    requires ConfirmCancel(st, token).outcome != NotFound
    ensures var i := FindByToken(st.rows, token).value;
      var p := st.patients[st.rows[i].patientId - 1];
      ConfirmCancel(st, token).outcome == CancelError <==> Truthy(p.email) && st.rows[i].medecinId !in st.users
  {
    var i := FindByToken(st.rows, token).value;
    PatientByIdIndex(st.patients, st.rows[i].patientId);
  }

  /** The slot of a cancelled appointment is free again for the listing:
      no confirmed appointment holds it any more, so the listing offers the
      time whenever it falls on the doctor's grid. */
  lemma CancelledSlotReleased(st: State, token: string)
    requires TableInvariant(st.rows)
    requires ConfirmCancel(st, token).outcome != NotFound
    ensures var i := FindByToken(st.rows, token).value;
      var rows := ConfirmCancel(st, token).state.rows;
      !ConfirmedAt(rows, st.rows[i].medecinId, st.rows[i].date, st.rows[i].heure)
      && st.rows[i].heure !in Slots.TakenHours(rows, st.rows[i].medecinId, st.rows[i].date)
  {
    ConfirmCancelEffect(st, token);
    ConfirmCancelKeepsTable(st, token);
    var i := FindByToken(st.rows, token).value;
    var rows := ConfirmCancel(st, token).state.rows;
    NoOtherHolder(rows, i);
  }

  /** Cancelling leaves the storage constraints holding. */
  lemma ConfirmCancelKeepsTable(st: State, token: string)
    requires TableInvariant(st.rows)
    ensures TableInvariant(ConfirmCancel(st, token).state.rows)
  {
    ConfirmCancelEffect(st, token);
    var rows := ConfirmCancel(st, token).state.rows;
    forall a, b | 0 <= a < b < |rows|
      ensures !SameSlot(rows[a], rows[b]) && rows[a].annulationToken != rows[b].annulationToken
    {
      assert SameSlot(rows[a], rows[b]) == SameSlot(st.rows[a], st.rows[b]);
    }
  }

  /** ... but the cancelled row still holds the slot in the storage
      constraint, so a well-formed booking of exactly that slot passes the
      re-check and is then refused as a conflict. */
  lemma CancelledSlotStillConflicts(st: State, token: string, slug: string, form: Booking.Form, token2: string)
    requires TableInvariant(st.rows)
    requires ConfirmCancel(st, token).outcome != NotFound
    requires Booking.FindClinic(st.clinics, slug).Some? && form.medecinId.Some?
    requires Booking.FieldsPresent(form.medecinId.value, Booking.Clean(form)) && ParseDate(form.date).Some?
    requires SqlInteger(form.medecinId.value)
    requires var i := FindByToken(st.rows, token).value;
      st.rows[i].medecinId == form.medecinId.value && st.rows[i].date == ParseDate(form.date).value
      && st.rows[i].heure == form.heure
    ensures var st1 := ConfirmCancel(st, token).state;
      Booking.Book(st1, slug, form, token2).outcome == Booking.Conflict
      && Booking.Book(st1, slug, form, token2).state.rows == st1.rows
  {
    ConfirmCancelEffect(st, token);
    ConfirmCancelKeepsTable(st, token);
    var i := FindByToken(st.rows, token).value;
    var st1 := ConfirmCancel(st, token).state;
    Booking.NonConfirmedSlotConflicts(st1, slug, form, token2, i);
  }
}
