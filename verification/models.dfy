/** The tables the public booking flow reads and writes: appointments,
    patients, doctors' availability rows and clinics, with the storage
    constraints declared on the appointment table. */
module Models {
  import opened Text
  import opened Clock

  /** The values the code stores in `Appointment.statut`. */
  datatype Status = Confirme | Termine | Annule | Absent

  /** A snapshot of one appointment row: what a query returns. */
  datatype Row = Row(
    patientId: int,
    medecinId: int,
    cliniqueId: int,
    date: Date,
    heure: string,
    motif: string,
    statut: Status,
    annulationToken: string)

  /** An appointment object.  Only `statut` is ever updated in place;
      every other column is fixed when the appointment is created, and in
      particular the cancellation token is minted once and never changes. */
  class Appointment {
    const patientId: int
    const medecinId: int
    const cliniqueId: int
    const date: Date
    const heure: string
    const motif: string
    const annulationToken: string
    var statut: Status

    /** A new appointment starts with the column default status `confirme`. */
    constructor (patientId: int, medecinId: int, cliniqueId: int, date: Date,
                 heure: string, motif: string, annulationToken: string)
      ensures this.patientId == patientId && this.medecinId == medecinId
      ensures this.cliniqueId == cliniqueId && this.date == date
      ensures this.heure == heure && this.motif == motif
      ensures this.annulationToken == annulationToken
      ensures statut == Confirme
    {
      this.patientId := patientId;
      this.medecinId := medecinId;
      this.cliniqueId := cliniqueId;
      this.date := date;
      this.heure := heure;
      this.motif := motif;
      this.annulationToken := annulationToken;
      statut := Confirme;
    }

    function Snapshot(): Row
      reads this
    {
      Row(patientId, medecinId, cliniqueId, date, heure, motif, statut, annulationToken)
    }

    /** Cancel, from any status; nothing but the status changes. */
    method Annuler()
      modifies this
      ensures statut == Annule
    {
      statut := Annule;
    }

    /** Mark as done, from any status. */
    method Terminer()
      modifies this
      ensures statut == Termine
    {
      statut := Termine;
    }

    /** Mark the patient as a no-show, from any status. */
    method MarquerAbsent()
      modifies this
      ensures statut == Absent
    {
      statut := Absent;
    }

    /** The appointment is past when today is strictly after its date: an
        appointment dated today is not past, one dated later is not past. */
    predicate EstPasse(today: Date)
      ensures EstPasse(today) ==> date != today && !today.Before(date)
      ensures !EstPasse(today) ==> date == today || today.Before(date)
    {
      date.Before(today)
    }

    /** Cancelled and confirmed exclude each other. */
    predicate EstAnnule()
      reads this
      ensures EstAnnule() ==> !EstConfirme()
    {
      statut == Annule
    }

    predicate EstConfirme()
      reads this
    {
      statut == Confirme
    }
  }

  datatype Patient = Patient(
    id: int,
    nom: string,
    telephone: string,
    email: Option<string>,
    cliniqueId: int)

  /** A doctor's working window for one date; `dureeRdv` is the slot
      length in minutes, `None` when the column is NULL. */
  datatype Availability = Availability(
    medecinId: int,
    date: Date,
    heureDebut: string,
    heureFin: string,
    dureeRdv: Option<int>,
    cliniqueId: int)

  datatype Clinic = Clinic(id: int, slug: string)

  /** Column default of `Availability.duree_rdv`, in minutes. */
  const DefaultDuree := 30

  /** The values an SQLite INTEGER parameter can carry: a query that binds
      an integer outside this signed 64-bit range raises before it reaches
      the table. */
  predicate SqlInteger(n: int)
  {
    -0x8000_0000_0000_0000 <= n < 0x8000_0000_0000_0000
  }

  /** Python truthiness of a nullable string column. */
  predicate Truthy(s: Option<string>)
  {
    s.Some? && s.value != ""
  }

  /** Two rows claim the same slot under the `unique_creneau` constraint:
      same doctor, date and time string, whatever their status. */
  predicate SameSlot(a: Row, b: Row)
  {
    a.medecinId == b.medecinId && a.date == b.date && a.heure == b.heure
  }

  predicate UniqueSlots(rows: seq<Row>)
  {
    forall i, j :: 0 <= i < j < |rows| ==> !SameSlot(rows[i], rows[j])
  }

  predicate UniqueTokens(rows: seq<Row>)
  {
    forall i, j :: 0 <= i < j < |rows| ==> rows[i].annulationToken != rows[j].annulationToken
  }

  /** What the storage layer guarantees of the appointment table. */
  predicate TableInvariant(rows: seq<Row>)
  {
    UniqueSlots(rows) && UniqueTokens(rows)
  }

  /** Some confirmed appointment holds this doctor, date and time string. */
  predicate ConfirmedAt(rows: seq<Row>, medecinId: int, date: Date, heure: string)
  {
    exists i :: 0 <= i < |rows| && rows[i].medecinId == medecinId && rows[i].date == date
      && rows[i].heure == heure && rows[i].statut == Confirme
  }

  /** An insert the storage layer refuses with an integrity error: the new
      row shares a slot or a cancellation token with a stored row. */
  predicate Clashes(rows: seq<Row>, row: Row)
  {
    exists i :: 0 <= i < |rows| && (SameSlot(rows[i], row) || rows[i].annulationToken == row.annulationToken)
  }

  /** With unique slots, a row that is not confirmed leaves its slot with no
      confirmed holder. */
  lemma NoOtherHolder(rows: seq<Row>, i: nat)
    requires UniqueSlots(rows) && i < |rows| && rows[i].statut != Confirme
    ensures !ConfirmedAt(rows, rows[i].medecinId, rows[i].date, rows[i].heure)
  {
    forall j | 0 <= j < |rows|
      ensures !(rows[j].medecinId == rows[i].medecinId && rows[j].date == rows[i].date
                && rows[j].heure == rows[i].heure && rows[j].statut == Confirme)
    {
      if j < i {
        assert !SameSlot(rows[j], rows[i]);
      } else if j > i {
        assert !SameSlot(rows[i], rows[j]);
      }
    }
  }

  /** Inserting into the appointment table: refused (None) exactly on a
      clash, otherwise the row is appended. */
  function Insert(rows: seq<Row>, row: Row): (r: Option<seq<Row>>)
    ensures r.None? <==> Clashes(rows, row)
    ensures r.Some? ==> r.value == rows + [row]
  {
    if Clashes(rows, row) then None else Some(rows + [row])
  }

  /** An accepted insert keeps both uniqueness constraints. */
  lemma InsertKeepsInvariant(rows: seq<Row>, row: Row)
    requires TableInvariant(rows) && Insert(rows, row).Some?
    ensures TableInvariant(Insert(rows, row).value)
  {
    var r := rows + [row];
    forall i, j | 0 <= i < j < |r| ensures !SameSlot(r[i], r[j]) && r[i].annulationToken != r[j].annulationToken {
      if j == |rows| {
        assert r[j] == row && r[i] == rows[i];
      }
    }
  }

  /** `Appointment.query.filter_by(annulation_token=token).first()`: the
      index of the first row holding the token. */
  function FindByToken(rows: seq<Row>, token: string): (r: Option<nat>)
    ensures r.Some? ==> r.value < |rows| && rows[r.value].annulationToken == token
    ensures r.Some? ==> forall j :: 0 <= j < r.value ==> rows[j].annulationToken != token
    ensures r.None? ==> forall j :: 0 <= j < |rows| ==> rows[j].annulationToken != token
  {
    if |rows| == 0 then None
    else if rows[0].annulationToken == token then Some(0)
    else match FindByToken(rows[1..], token)
      case None => None
      case Some(k) => Some(k + 1)
  }

  /** With unique tokens a token names at most one appointment, so the
      lookup finds exactly the row that holds it. */
  lemma TokenNamesOneRow(rows: seq<Row>, token: string, i: nat)
    requires UniqueTokens(rows)
    requires i < |rows| && rows[i].annulationToken == token
    ensures FindByToken(rows, token) == Some(i)
  {
  }

  /** The whole database as the public flow sees it; `users` holds the ids
      of existing user accounts. */
  datatype State = State(
    clinics: seq<Clinic>,
    users: set<int>,
    patients: seq<Patient>,
    availabilities: seq<Availability>,
    rows: seq<Row>)

  /** Patient ids are assigned in insertion order, starting at 1. */
  predicate PatientIds(patients: seq<Patient>)
  {
    forall i :: 0 <= i < |patients| ==> patients[i].id == i + 1
  }

  /** Every appointment names a stored patient. */
  predicate PatientRefs(st: State)
  {
    forall i :: 0 <= i < |st.rows| ==> 1 <= st.rows[i].patientId <= |st.patients|
  }

  predicate ValidState(st: State)
  {
    TableInvariant(st.rows) && PatientIds(st.patients) && PatientRefs(st)
  }

  /** `Patient.query.get(id)`: the first patient with this id. */
  function PatientById(patients: seq<Patient>, id: int): (r: Option<Patient>)
    ensures r.Some? ==> r.value in patients && r.value.id == id
    ensures r.None? ==> forall p :: p in patients ==> p.id != id
  {
    if |patients| == 0 then None
    else if patients[0].id == id then Some(patients[0])
    else PatientById(patients[1..], id)
  }

  /** With ids assigned in order, the patient with id k is the k-th one,
      and ids outside 1..|patients| name nobody. */
  lemma PatientByIdIndex(patients: seq<Patient>, id: int)
    requires PatientIds(patients)
    ensures 1 <= id <= |patients| ==> PatientById(patients, id) == Some(patients[id - 1])
    ensures !(1 <= id <= |patients|) ==> PatientById(patients, id).None?
  {
    if 1 <= id <= |patients| {
      assert patients[id - 1].id == id;
    }
  }
}
