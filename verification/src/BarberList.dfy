/**
 Grouping the rows of the barber-service join into barbers with their services.
 */
module BarberList {
  import opened Wrappers

  datatype Service = Service(id: string, name: string, price: int, durationMinutes: int)

  // One row of the left join; a barber without active services has one row without a service.
  datatype JoinRow = JoinRow(barberId: string, barberName: string, service: Option<Service>)

  datatype Barber = Barber(id: string, name: string, services: seq<Service>)

  /** The services on the rows of one barber, in row order. */
  function ServicesOf(rows: seq<JoinRow>, id: string): seq<Service> {
    if rows == [] then []
    else
      var last := rows[|rows| - 1];
      ServicesOf(rows[..|rows| - 1], id) +
      if last.barberId == id && last.service.Some? then [last.service.value] else []
  }

  predicate IsFirstRow(rows: seq<JoinRow>, k: nat) {
    k < |rows| && forall j :: 0 <= j < k ==> rows[j].barberId != rows[k].barberId
  }

  /** One barber for each id, in the order of first rows, named by the first row, with all services
      of its rows in row order. `firsts` gives the first row of each barber. */
  ghost predicate IsGrouping(barbers: seq<Barber>, rows: seq<JoinRow>, firsts: seq<nat>) {
    && |firsts| == |barbers|
    && (forall i :: 0 <= i < |firsts| ==> IsFirstRow(rows, firsts[i]))
    && (forall i, j :: 0 <= i < j < |firsts| ==> firsts[i] < firsts[j])
    && (forall k: nat :: IsFirstRow(rows, k) ==> k in firsts)
    && (forall i :: 0 <= i < |barbers| ==>
          barbers[i] == Barber(rows[firsts[i]].barberId, rows[firsts[i]].barberName,
                               ServicesOf(rows, rows[firsts[i]].barberId)))
  }

  /** index maps exactly the ids of the barbers to their positions. */
  ghost predicate Indexes(index: map<string, nat>, barbers: seq<Barber>) {
    && (forall id :: id in index ==> index[id] < |barbers| && barbers[index[id]].id == id)
    && (forall i :: 0 <= i < |barbers| ==> barbers[i].id in index && index[barbers[i].id] == i)
  }

  /** The loop over the rows, with the map from barber ids to positions. */
  method GroupRows(rows: seq<JoinRow>) returns (barbers: seq<Barber>)
    ensures exists firsts :: IsGrouping(barbers, rows, firsts)
  {
    barbers := [];
    ghost var firsts: seq<nat> := [];
    var index: map<string, nat> := map[];
    for n := 0 to |rows|
      invariant IsGrouping(barbers, rows[..n], firsts) && Indexes(index, barbers)
    {
      assert rows[..n + 1] == rows[..n] + [rows[n]];
      if rows[n].barberId in index {
        KnownBarberRow(barbers, rows[..n], firsts, rows[n], index[rows[n].barberId]);
      } else {
        NewBarberRow(barbers, rows[..n], firsts, rows[n]);
        firsts := firsts + [n];
      }
      barbers, index := AddRow(barbers, index, rows[n]);
    }
    assert rows[..|rows|] == rows;
  }

  /** One row: a new barber is appended and indexed, then the service goes to the barber's entry. */
  method AddRow(barbers: seq<Barber>, index: map<string, nat>, r: JoinRow)
    returns (barbers': seq<Barber>, index': map<string, nat>)
    requires Indexes(index, barbers)
    ensures Indexes(index', barbers')
    ensures barbers' == if r.barberId !in index
                        then barbers + [WithService(Barber(r.barberId, r.barberName, []), r.service)]
                        else barbers[index[r.barberId] := WithService(barbers[index[r.barberId]], r.service)]
  {
    barbers', index' := barbers, index;
    if r.barberId !in index {
      barbers' := barbers' + [Barber(r.barberId, r.barberName, [])];
      index' := index'[r.barberId := |barbers'| - 1];
    }
    var i := index'[r.barberId];
    if r.service.Some? {
      barbers' := barbers'[i := barbers'[i].(services := barbers'[i].services + [r.service.value])];
    }
  }

  /** The grouping after one more row, written without the loop's branches. */
  function WithService(b: Barber, s: Option<Service>): Barber {
    if s.Some? then b.(services := b.services + [s.value]) else b
  }

  lemma ServicesAppend(rows: seq<JoinRow>, r: JoinRow, id: string)
    ensures ServicesOf(rows + [r], id) ==
            ServicesOf(rows, id) + if r.barberId == id && r.service.Some? then [r.service.value] else []
  {
    assert (rows + [r])[..|rows|] == rows;
  }

  lemma FirstRowAppend(rows: seq<JoinRow>, r: JoinRow, k: nat)
    ensures IsFirstRow(rows + [r], k) <==>
            IsFirstRow(rows, k) || (k == |rows| && forall j :: 0 <= j < |rows| ==> rows[j].barberId != r.barberId)
  {
    var more := rows + [r];
    if k <= |rows| {
      assert forall j :: 0 <= j < k ==> more[j] == rows[j];
    }
  }

  lemma {:induction false} NoServicesYet(rows: seq<JoinRow>, id: string)
    requires forall j :: 0 <= j < |rows| ==> rows[j].barberId != id
    ensures ServicesOf(rows, id) == []
  {
    if rows == [] {
    } else {
      NoServicesYet(rows[..|rows| - 1], id);
    }
  }

  /** Every row's barber has a first row. */
  lemma {:induction false} FirstRowOf(rows: seq<JoinRow>, k: nat) returns (f: nat)
    requires k < |rows|
    ensures IsFirstRow(rows, f) && rows[f].barberId == rows[k].barberId
  {
    if j: nat :| j < k && rows[j].barberId == rows[k].barberId {
      f := FirstRowOf(rows, j);
    } else {
      f := k;
    }
  }

  lemma UnknownHasNoRow(barbers: seq<Barber>, rows: seq<JoinRow>, firsts: seq<nat>, id: string)
    requires IsGrouping(barbers, rows, firsts) && forall i :: 0 <= i < |barbers| ==> barbers[i].id != id
    ensures forall j :: 0 <= j < |rows| ==> rows[j].barberId != id
  {
    forall j | 0 <= j < |rows|
      ensures rows[j].barberId != id
    {
      var f := FirstRowOf(rows, j);
      assert f in firsts;
      var i :| 0 <= i < |firsts| && firsts[i] == f;
      assert barbers[i].id == rows[j].barberId;
    }
  }

  lemma NewBarberRow(barbers: seq<Barber>, rows: seq<JoinRow>, firsts: seq<nat>, r: JoinRow)
    requires IsGrouping(barbers, rows, firsts) && forall i :: 0 <= i < |barbers| ==> barbers[i].id != r.barberId
    ensures IsGrouping(barbers + [WithService(Barber(r.barberId, r.barberName, []), r.service)], rows + [r], firsts + [|rows|])
  {
    UnknownHasNoRow(barbers, rows, firsts, r.barberId);
    NoServicesYet(rows, r.barberId);
    forall k: nat {
      FirstRowAppend(rows, r, k);
    }
    forall id {
      ServicesAppend(rows, r, id);
    }
  }

  lemma KnownBarberRow(barbers: seq<Barber>, rows: seq<JoinRow>, firsts: seq<nat>, r: JoinRow, i: nat)
    requires IsGrouping(barbers, rows, firsts) && i < |barbers| && barbers[i].id == r.barberId
    ensures IsGrouping(barbers[i := WithService(barbers[i], r.service)], rows + [r], firsts)
  {
    forall k: nat {
      FirstRowAppend(rows, r, k);
    }
    forall id {
      ServicesAppend(rows, r, id);
    }
    forall j | 0 <= j < |barbers| && j != i
      ensures rows[firsts[j]].barberId != r.barberId
    {
      var a, b := if i < j then firsts[i] else firsts[j], if i < j then firsts[j] else firsts[i];
      assert a < b && IsFirstRow(rows, b);
    }
  }

  lemma {:induction false} SameElements(a: seq<nat>, b: seq<nat>)
    requires forall i, j :: 0 <= i < j < |a| ==> a[i] < a[j]
    requires forall i, j :: 0 <= i < j < |b| ==> b[i] < b[j]
    requires forall k :: k in a <==> k in b
    ensures a == b
  {
    var c := if a == [] then b else a;
    assert c != [] ==> c[0] in c;
    if a != [] && b != [] {
      assert a[0] in b && b[0] in a;
      RestOf(a);
      RestOf(b);
      SameElements(a[1..], b[1..]);
      assert a == [a[0]] + a[1..] && b == [b[0]] + b[1..];
    }
  }

  lemma RestOf(a: seq<nat>)
    requires a != [] && forall i, j :: 0 <= i < j < |a| ==> a[i] < a[j]
    ensures forall k :: k in a ==> a[0] <= k
    ensures forall k :: k in a[1..] <==> k in a && k != a[0]
  {
    forall k
      ensures k in a[1..] <==> k in a && k != a[0]
    {
      if k in a && k != a[0] {
        var i :| 0 <= i < |a| && a[i] == k;
        assert a[1..][i - 1] == k;
      }
      if k in a[1..] {
        var i :| 0 <= i < |a| - 1 && a[1..][i] == k;
        assert a[i + 1] == k;
      }
    }
  }

  /** The rows determine the answer: no barber, service or order is left open. */
  lemma GroupingIsUnique(barbers: seq<Barber>, others: seq<Barber>, rows: seq<JoinRow>,
                         firsts: seq<nat>, otherFirsts: seq<nat>)
    requires IsGrouping(barbers, rows, firsts) && IsGrouping(others, rows, otherFirsts)
    ensures barbers == others
  {
    SameElements(firsts, otherFirsts);
  }

  /** The services of a barber are those on its rows, each row once, in row order. */
  lemma {:induction false} ServicesInRowOrder(rows: seq<JoinRow>, id: string) returns (at: seq<nat>)
    ensures |at| == |ServicesOf(rows, id)|
    ensures forall i :: 0 <= i < |at| ==>
                          at[i] < |rows| && rows[at[i]].barberId == id && rows[at[i]].service == Some(ServicesOf(rows, id)[i])
    ensures forall i, j :: 0 <= i < j < |at| ==> at[i] < at[j]
    ensures forall k: nat :: k < |rows| && rows[k].barberId == id && rows[k].service.Some? ==> k in at
  {
    if rows == [] {
      at := [];
    } else {
      var rest, last := rows[..|rows| - 1], rows[|rows| - 1];
      at := ServicesInRowOrder(rest, id);
      assert forall k :: 0 <= k < |rest| ==> rest[k] == rows[k];
      if last.barberId == id && last.service.Some? {
        at := at + [|rest|];
      }
    }
  }
}
