/** The public slot listing: a doctor's availability window for one date,
    walked in steps of the slot length, minus the times held by confirmed
    appointments. */
module Slots {
  import opened Text
  import opened Clock
  import opened Models

  /** `dispos.duree_rdv or 30`: a NULL or zero length falls back to the
      default; any other value, negative ones included, is used as is. */
  function EffectiveDuree(d: Option<int>): (r: int)
    ensures r != 0
    ensures r == DefaultDuree || d == Some(r)
    ensures d.None? || d == Some(0) ==> r == DefaultDuree
    ensures d.Some? && d.value != 0 ==> r == d.value
  {
    if d.None? || d.value == 0 then DefaultDuree else d.value
  }

  /** The JSON body of the listing route: the slots, or an empty list with
      an error (HTTP 400). */
  datatype Listing = Creneaux(slots: seq<string>) | ListingError

  function Prepend(prefix: seq<string>, o: Option<seq<string>>): Option<seq<string>>
  {
    match o
    case None => None
    case Some(rest) => Some(prefix + rest)
  }

  lemma PrependAppend(a: seq<string>, b: seq<string>, o: Option<seq<string>>)
    ensures Prepend(a, Prepend(b, o)) == Prepend(a + b, o)
    ensures Prepend([], o) == o
  {
    if o.Some? {
      assert a + (b + o.value) == (a + b) + o.value;
      assert [] + o.value == o.value;
    }
  }

  /** The route's loop run from `current` on: each time before `fin` is
      printed as `HH:MM` and kept unless taken, then the time advances by
      `duree`; a step that leaves the datetime range raises, which the
      route turns into an error (None). */
  function SlotWalk(current: int, fin: int, duree: int, pris: seq<string>): Option<seq<string>>
    requires duree != 0 && InDatetimeRange(current)
    decreases if duree > 0 then MaxOffset - current else current - MinOffset
  {
    if current >= fin then Some([])
    else
      var heureStr := ClockLabel(current);
      var here := if heureStr in pris then [] else [heureStr];
      if !InDatetimeRange(current + duree) then None
      else Prepend(here, SlotWalk(current + duree, fin, duree, pris))
  }

  /** The loop of the listing route, proved against SlotWalk. */
  method GenerateSlots(debut: int, fin: int, duree: int, pris: seq<string>) returns (r: Option<seq<string>>)
    requires duree != 0 && InDatetimeRange(debut)
    ensures r == SlotWalk(debut, fin, duree, pris)
  {
    var creneaux: seq<string> := [];
    var current := debut;
    PrependAppend([], [], SlotWalk(debut, fin, duree, pris));
    while current < fin
      invariant InDatetimeRange(current)
      invariant SlotWalk(debut, fin, duree, pris) == Prepend(creneaux, SlotWalk(current, fin, duree, pris))
      decreases if duree > 0 then MaxOffset - current else current - MinOffset
    {
      var heureStr := ClockLabel(current);
      var here: seq<string> := if heureStr !in pris then [heureStr] else [];
      if !InDatetimeRange(current + duree) {
        return None;
      }
      PrependAppend(creneaux, here, SlotWalk(current + duree, fin, duree, pris));
      creneaux := creneaux + here;
      current := current + duree;
    }
    assert creneaux + [] == creneaux;
    return Some(creneaux);
  }

  // ---------------------------------------------------------------------
  // The grid of start times and the filter, for a positive slot length.

  /** The start times the loop visits: `current`, `current + duree`, ...,
      strictly before `fin`. */
  function Times(current: int, fin: int, duree: int): seq<int>
    requires duree > 0
    decreases fin - current
  {
    if current >= fin then [] else [current] + Times(current + duree, fin, duree)
  }

  /** The times whose label is not taken, in order. */
  function Kept(ts: seq<int>, pris: seq<string>): seq<int>
  {
    if |ts| == 0 then []
    else (if ClockLabel(ts[0]) in pris then [] else [ts[0]]) + Kept(ts[1..], pris)
  }

  function Labels(ts: seq<int>): (r: seq<string>)
    ensures |r| == |ts|
  {
    if |ts| == 0 then [] else [ClockLabel(ts[0])] + Labels(ts[1..])
  }

  /** Number of grid points in [debut, fin): the ceiling of the window
      length over the slot length. */
  function SlotCount(debut: int, fin: int, duree: int): nat
    requires duree > 0
  {
    if debut < fin then (fin - debut + duree - 1) / duree else 0
  }

  lemma MulMono(a: int, b: int, d: int)
    requires a <= b && d >= 0
    ensures a * d <= b * d
  {
    assert b * d - a * d == (b - a) * d;
  }

  lemma MulStep(a: int, b: int, d: int)
    requires a < b && d >= 0
    ensures a * d + d <= b * d
  {
    assert (a + 1) * d == a * d + d;
    MulMono(a + 1, b, d);
  }

  /** Euclidean division is determined by quotient and remainder. */
  lemma DivUnique(n: int, d: int, q: int, r: int)
    requires d > 0 && 0 <= r < d && n == q * d + r
    ensures n / d == q && n % d == r
  {
    var q0, r0 := n / d, n % d;
    assert n == q0 * d + r0;
    if q > q0 {
      MulStep(q0, q, d);
    } else if q < q0 {
      MulStep(q, q0, d);
    }
  }

  lemma CeilStep(x: int, d: int)
    requires d > 0 && x > d
    ensures (x + d - 1) / d == 1 + (x - d + d - 1) / d
  {
    var q, r := (x - 1) / d, (x - 1) % d;
    assert x - 1 == q * d + r;
    assert x + d - 1 == (q + 1) * d + r;
    DivUnique(x + d - 1, d, q + 1, r);
  }

  lemma ModShift(x: int, d: int)
    requires d > 0
    ensures (x - d) % d == x % d
    ensures x % d == 0 && x > 0 ==> x >= d
  {
    var q, r := x / d, x % d;
    assert x - d == (q - 1) * d + r;
    DivUnique(x - d, d, q - 1, r);
    if r == 0 && x > 0 {
      if q < 1 {
        MulMono(q, 0, d);
      }
      MulMono(1, q, d);
    }
  }

  /** The grid is the arithmetic progression from `current` with step
      `duree`, of ceiling((fin - current) / duree) elements, all in
      [current, fin) and strictly increasing. */
  lemma {:induction false} TimesShape(current: int, fin: int, duree: int)
    requires duree > 0
    ensures var ts := Times(current, fin, duree);
      && |ts| == SlotCount(current, fin, duree)
      && (forall k :: 0 <= k < |ts| ==> ts[k] == current + k * duree)
      && (forall k :: 0 <= k < |ts| ==> current <= ts[k] < fin)
      && Ascending(ts)
    decreases fin - current
  {
    if current < fin {
      var rest := Times(current + duree, fin, duree);
      TimesShape(current + duree, fin, duree);
      var ts := [current] + rest;
      assert Times(current, fin, duree) == ts;
      if current + duree < fin {
        CeilStep(fin - current, duree);
      } else {
        DivUnique(fin - current + duree - 1, duree, 1, fin - current - 1);
      }
      forall k | 0 < k < |ts| ensures ts[k] == current + k * duree {
        assert ts[k] == rest[k - 1];
        assert (k - 1) * duree + duree == k * duree;
      }
    }
  }

  /** A time is on the grid exactly when it lies in [current, fin) at a
      whole number of steps from `current`. */
  lemma {:induction false} TimesMembers(current: int, fin: int, duree: int, t: int)
    requires duree > 0
    ensures t in Times(current, fin, duree) <==> current <= t < fin && (t - current) % duree == 0
    decreases fin - current
  {
    if current < fin {
      TimesMembers(current + duree, fin, duree, t);
      ModShift(t - current, duree);
      assert t - current - duree == t - (current + duree);
    }
  }

  lemma {:induction false} KeptMembers(ts: seq<int>, pris: seq<string>, t: int)
    ensures t in Kept(ts, pris) <==> t in ts && ClockLabel(t) !in pris
  {
    if |ts| > 0 {
      KeptMembers(ts[1..], pris, t);
      assert ts == [ts[0]] + ts[1..];
    }
  }

  predicate Ascending(s: seq<int>)
  {
    forall i, j :: 0 <= i < j < |s| ==> s[i] < s[j]
  }

  /** Filtering keeps the order of what it keeps. */
  lemma {:induction false} KeptAscending(ts: seq<int>, pris: seq<string>)
    requires Ascending(ts)
    ensures Ascending(Kept(ts, pris))
  {
    if |ts| > 0 {
      KeptAscending(ts[1..], pris);
      var rest := Kept(ts[1..], pris);
      var head := if ClockLabel(ts[0]) in pris then [] else [ts[0]];
      var ks := head + rest;
      assert Kept(ts, pris) == ks;
      forall i, j | 0 <= i < j < |ks| ensures ks[i] < ks[j] {
        if |head| == 1 && i == 0 {
          assert ks[0] == ts[0];
          assert ks[j] == rest[j - 1];
          KeptMembers(ts[1..], pris, rest[j - 1]);
          assert rest[j - 1] in ts[1..];
          var m :| 0 <= m < |ts[1..]| && ts[1..][m] == rest[j - 1];
          assert ts[m + 1] == rest[j - 1];
          assert ts[0] < ts[m + 1];
        } else {
          assert ks[i] == rest[i - |head|] && ks[j] == rest[j - |head|];
        }
      }
    }
  }

  /** With nothing taken every grid time is kept. */
  lemma {:induction false} KeptNothingTaken(ts: seq<int>)
    ensures Kept(ts, []) == ts
  {
    if |ts| > 0 {
      KeptNothingTaken(ts[1..]);
    }
  }

  lemma {:induction false} LabelsAppend(a: seq<int>, b: seq<int>)
    ensures Labels(a + b) == Labels(a) + Labels(b)
  {
    if |a| > 0 {
      LabelsAppend(a[1..], b);
      assert (a + b)[1..] == a[1..] + b;
    } else {
      assert a + b == b;
    }
  }

  lemma {:induction false} LabelsShape(ts: seq<int>)
    ensures |Labels(ts)| == |ts|
    ensures forall i :: 0 <= i < |ts| ==> Labels(ts)[i] == ClockLabel(ts[i])
  {
    if |ts| > 0 {
      LabelsShape(ts[1..]);
    }
  }

  /** Distinct times of one day give distinct labels. */
  lemma LabelsDistinct(ts: seq<int>)
    requires Ascending(ts)
    requires forall i :: 0 <= i < |ts| ==> 0 <= ts[i] < MinutesPerDay
    ensures forall i, j :: 0 <= i < j < |ts| ==> Labels(ts)[i] != Labels(ts)[j]
  {
    LabelsShape(ts);
    forall i, j | 0 <= i < j < |ts| ensures Labels(ts)[i] != Labels(ts)[j] {
      if Labels(ts)[i] == Labels(ts)[j] {
        ClockLabelInjective(ts[i], ts[j]);
      }
    }
  }

  // ---------------------------------------------------------------------
  // What the walk yields.

  /** With a positive slot length inside one day the walk raises nothing
      (unless the very first step leaves the datetime range) and yields
      the labels of the kept grid times. */
  lemma {:induction false} WalkPositive(current: int, fin: int, duree: int, pris: seq<string>)
    requires 0 < duree && 0 <= current < MaxOffset && fin <= MinutesPerDay
    requires current < fin ==> current + duree < MaxOffset
    ensures SlotWalk(current, fin, duree, pris) == Some(Labels(Kept(Times(current, fin, duree), pris)))
    decreases fin - current
  {
    if current < fin {
      var next := current + duree;
      WalkPositive(next, fin, duree, pris);
      var ts := Times(current, fin, duree);
      var rest := Times(next, fin, duree);
      assert ts == [current] + rest;
      assert ts[1..] == rest;
      var here := if ClockLabel(current) in pris then [] else [ClockLabel(current)];
      var head := if ClockLabel(current) in pris then [] else [current];
      assert Kept(ts, pris) == head + Kept(rest, pris);
      LabelsAppend(head, Kept(rest, pris));
      assert Labels(head) == here;
      assert SlotWalk(current, fin, duree, pris) == Prepend(here, SlotWalk(next, fin, duree, pris));
    }
  }

  /** The walk fails for a positive slot length only when the first step
      already leaves the datetime range. */
  lemma WalkOverflowIff(debut: int, fin: int, duree: int, pris: seq<string>)
    requires 0 < duree && 0 <= debut < fin <= MinutesPerDay
    ensures SlotWalk(debut, fin, duree, pris).None? <==> debut + duree >= MaxOffset
  {
    if debut + duree < MaxOffset {
      WalkPositive(debut, fin, duree, pris);
    }
  }

  /** A negative slot length never reaches `fin`: the loop walks back
      until the datetime range is left, and the listing fails. */
  lemma {:induction false} WalkNegative(current: int, fin: int, duree: int, pris: seq<string>)
    requires duree < 0 && InDatetimeRange(current) && current < fin
    ensures SlotWalk(current, fin, duree, pris) == None
    decreases current - MinOffset
  {
    if InDatetimeRange(current + duree) {
      WalkNegative(current + duree, fin, duree, pris);
    }
  }

  /** Whatever the slot length, a taken time string is never listed. */
  lemma {:induction false} WalkAvoidsTaken(current: int, fin: int, duree: int, pris: seq<string>, h: string)
    requires duree != 0 && InDatetimeRange(current) && h in pris
    ensures SlotWalk(current, fin, duree, pris).Some? ==> h !in SlotWalk(current, fin, duree, pris).value
    decreases if duree > 0 then MaxOffset - current else current - MinOffset
  {
    if current < fin && InDatetimeRange(current + duree) {
      WalkAvoidsTaken(current + duree, fin, duree, pris, h);
    }
  }

  /** The whole contract of the loop for a window inside one day: the
      listed labels are those of the grid times in [debut, fin) that are
      not taken, in increasing time order, without duplicates. */
  lemma WindowSlots(debut: int, fin: int, duree: int, pris: seq<string>)
    requires 0 < duree && 0 <= debut < MinutesPerDay && fin <= MinutesPerDay
    requires debut < fin ==> debut + duree < MaxOffset
    ensures var ks := Kept(Times(debut, fin, duree), pris);
      && SlotWalk(debut, fin, duree, pris) == Some(Labels(ks))
      && (forall t :: t in ks <==> debut <= t < fin && (t - debut) % duree == 0 && ClockLabel(t) !in pris)
      && Ascending(ks)
      && (forall i, j :: 0 <= i < j < |ks| ==> Labels(ks)[i] != Labels(ks)[j])
  {
    var ts := Times(debut, fin, duree);
    var ks := Kept(ts, pris);
    WalkPositive(debut, fin, duree, pris);
    TimesShape(debut, fin, duree);
    KeptAscending(ts, pris);
    forall t ensures t in ks <==> debut <= t < fin && (t - debut) % duree == 0 && ClockLabel(t) !in pris {
      KeptMembers(ts, pris, t);
      TimesMembers(debut, fin, duree, t);
    }
    forall i | 0 <= i < |ks| ensures 0 <= ks[i] < MinutesPerDay {
      KeptMembers(ts, pris, ks[i]);
    }
    LabelsDistinct(ks);
  }

  /** With nothing taken the listing has exactly ceiling((fin - debut) /
      duree) slots, and none when the window is empty. */
  lemma SlotCountNothingTaken(debut: int, fin: int, duree: int)
    requires 0 < duree && 0 <= debut < MinutesPerDay && fin <= MinutesPerDay
    requires debut < fin ==> debut + duree < MaxOffset
    ensures SlotWalk(debut, fin, duree, []).Some?
    ensures |SlotWalk(debut, fin, duree, []).value| == SlotCount(debut, fin, duree)
    ensures debut >= fin ==> SlotWalk(debut, fin, duree, []).value == []
  {
    WalkPositive(debut, fin, duree, []);
    KeptNothingTaken(Times(debut, fin, duree));
    LabelsShape(Times(debut, fin, duree));
    TimesShape(debut, fin, duree);
  }

  /** 09:00 to 10:00 in 30-minute slots with nothing taken lists 09:00 and
      09:30; 10:00 itself is not a start time. */
  lemma NineToTen()
    ensures ParseTime("09:00") == Some(540) && ParseTime("10:00") == Some(600)
    ensures SlotWalk(540, 600, 30, []) == Some(["09:00", "09:30"])
  {
    ParseFormatTime(540);
    ParseFormatTime(600);
    assert FormatTime(540) == "09:00";
    assert FormatTime(600) == "10:00";
    assert ClockLabel(540) == "09:00";
    assert ClockLabel(570) == "09:30";
    assert SlotWalk(600, 600, 30, []) == Some([]);
    assert InDatetimeRange(600) && InDatetimeRange(570);
    assert SlotWalk(570, 600, 30, []) == Prepend(["09:30"], SlotWalk(600, 600, 30, []));
    assert ["09:30"] + [] == ["09:30"];
    assert SlotWalk(540, 600, 30, []) == Prepend(["09:00"], SlotWalk(570, 600, 30, []));
    assert ["09:00"] + ["09:30"] == ["09:00", "09:30"];
  }

  // ---------------------------------------------------------------------
  // The listing route.

  /** `[r.heure for r in rdv_pris]`: the time strings of the confirmed
      appointments of this doctor on this date. */
  function TakenHours(rows: seq<Row>, medecinId: int, date: Date): (r: seq<string>)
    ensures forall h :: h in r <==> ConfirmedAt(rows, medecinId, date, h)
  {
    if |rows| == 0 then []
    else
      var rest := TakenHours(rows[1..], medecinId, date);
      assert forall h :: ConfirmedAt(rows[1..], medecinId, date, h) ==> ConfirmedAt(rows, medecinId, date, h) by {
        forall h | ConfirmedAt(rows[1..], medecinId, date, h) ensures ConfirmedAt(rows, medecinId, date, h) {
          var i :| 0 <= i < |rows[1..]| && rows[1..][i].medecinId == medecinId && rows[1..][i].date == date
            && rows[1..][i].heure == h && rows[1..][i].statut == Confirme;
          assert rows[i + 1] == rows[1..][i];
        }
      }
      var r0 := rows[0];
      if r0.medecinId == medecinId && r0.date == date && r0.statut == Confirme
      then [r0.heure] + rest
      else rest
  }

  /** `Availability.query.filter_by(medecin_id=..., date=...).first()`. */
  function FirstAvailability(avails: seq<Availability>, medecinId: int, date: Date): (r: Option<Availability>)
    ensures r.Some? ==> r.value in avails && r.value.medecinId == medecinId && r.value.date == date
    ensures r.None? ==> forall a :: a in avails ==> !(a.medecinId == medecinId && a.date == date)
  {
    if |avails| == 0 then None
    else if avails[0].medecinId == medecinId && avails[0].date == date then Some(avails[0])
    else FirstAvailability(avails[1..], medecinId, date)
  }

  /** `get_disponibilites_public(medecin_id, date)`: a malformed date, an
      unknown doctor, an unparsable window or a raising walk give an
      error (a doctor id that is not an SQLite INTEGER makes the doctor
      lookup raise); no availability row gives no slots. */
  function Disponibilites(st: State, medecinId: int, date: string): Listing
  {
    match ParseDate(date)
    case None => ListingError
    case Some(d) =>
      if !SqlInteger(medecinId) || medecinId !in st.users then ListingError
      else match FirstAvailability(st.availabilities, medecinId, d)
        case None => Creneaux([])
        case Some(dispo) =>
          match (ParseTime(dispo.heureDebut), ParseTime(dispo.heureFin))
          case (Some(debut), Some(fin)) =>
            (match SlotWalk(debut, fin, EffectiveDuree(dispo.dureeRdv), TakenHours(st.rows, medecinId, d))
             case None => ListingError
             case Some(c) => Creneaux(c))
          case _ => ListingError
  }

  /** The error and fallback cases of the listing route. */
  lemma ListingFallbacks(st: State, medecinId: int, date: string)
    ensures ParseDate(date).None? ==> Disponibilites(st, medecinId, date) == ListingError
    ensures ParseDate(date).Some? && medecinId !in st.users ==> Disponibilites(st, medecinId, date) == ListingError
    ensures ParseDate(date).Some? && !SqlInteger(medecinId) ==> Disponibilites(st, medecinId, date) == ListingError
    ensures ParseDate(date).Some? && SqlInteger(medecinId) && medecinId in st.users
      && (forall a :: a in st.availabilities ==> !(a.medecinId == medecinId && a.date == ParseDate(date).value))
      ==> Disponibilites(st, medecinId, date) == Creneaux([])
    ensures (&& ParseDate(date).Some? && medecinId in st.users
             && FirstAvailability(st.availabilities, medecinId, ParseDate(date).value).Some?
             && (var dispo := FirstAvailability(st.availabilities, medecinId, ParseDate(date).value).value;
                 ParseTime(dispo.heureDebut).None? || ParseTime(dispo.heureFin).None?))
      ==> Disponibilites(st, medecinId, date) == ListingError
    ensures (&& ParseDate(date).Some? && medecinId in st.users
             && FirstAvailability(st.availabilities, medecinId, ParseDate(date).value).Some?
             && (var dispo := FirstAvailability(st.availabilities, medecinId, ParseDate(date).value).value;
                 && ParseTime(dispo.heureDebut).Some? && ParseTime(dispo.heureFin).Some?
                 && SlotWalk(ParseTime(dispo.heureDebut).value, ParseTime(dispo.heureFin).value,
                             EffectiveDuree(dispo.dureeRdv),
                             TakenHours(st.rows, medecinId, ParseDate(date).value)).None?))
      ==> Disponibilites(st, medecinId, date) == ListingError
  {
  }

  /** A time string is listed exactly when it labels a grid time of the
      doctor's first window for that date and no CONFIRMED appointment
      holds it: cancelled, finished and no-show appointments never block a
      slot. */
  lemma ListedIff(st: State, medecinId: int, date: string, d: Date, dispo: Availability, debut: int, fin: int)
    requires ParseDate(date) == Some(d) && SqlInteger(medecinId) && medecinId in st.users
    requires FirstAvailability(st.availabilities, medecinId, d) == Some(dispo)
    requires ParseTime(dispo.heureDebut) == Some(debut) && ParseTime(dispo.heureFin) == Some(fin)
    requires EffectiveDuree(dispo.dureeRdv) > 0
    requires debut < fin ==> debut + EffectiveDuree(dispo.dureeRdv) < MaxOffset
    ensures var duree := EffectiveDuree(dispo.dureeRdv);
      var ks := Kept(Times(debut, fin, duree), TakenHours(st.rows, medecinId, d));
      && Disponibilites(st, medecinId, date) == Creneaux(Labels(ks))
      && (forall t :: t in ks <==>
            (debut <= t < fin && (t - debut) % duree == 0 && !ConfirmedAt(st.rows, medecinId, d, ClockLabel(t))))
  {
    var duree := EffectiveDuree(dispo.dureeRdv);
    WindowSlots(debut, fin, duree, TakenHours(st.rows, medecinId, d));
  }
}
