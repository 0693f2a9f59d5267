/**
 * The summary controller: list, read, create, update and delete summaries,
 * each guarded by ownership against the authenticated user. The handlers
 * write through an Express response, and several of them go on after an
 * error reply; the model keeps every attempted write so those sequences show.
 */
module SummarizeController {
  import opened Common
  import opened Strings
  import opened Http

  /** A row of the `summarize` table. */
  datatype Summary = Summary(id: int, userId: string, content: seq<string>, pdfFile: string)

  /** The result of `Number(req.params.id)`: an integer, or a value no integer id equals (NaN, a fraction). */
  datatype NumberValue = Integer(n: int) | NonInteger

  /** The reply bodies: `{ error }`, `{ data: summary }`, `{ data: summaries }`, or none (204). */
  datatype Body = Error(error: string) | One(summary: Summary) | Many(summaries: seq<Summary>) | NoContent

  /** Whether a handler's promise settles normally or rejects (a write after the headers were sent, inside a `catch`). */
  datatype Completion = Returned | Rejected

  /** The body of `createSummarize`, which no schema checks. */
  datatype CreateBody = CreateBody(content: Option<seq<string>>, pdfFile: Option<string>)

  const Unauthorized: string := "Unauthorized"
  const InternalError: string := "Internal server error"
  const NotFound: string := "Summarize not found"
  const InvalidPdf: string := "Invalid body: pdf_file"

  /**
   * `Number` on a path segment, for decimal digit strings; it never raises,
   * which is why the 400 `'Invalid path parameter: id'` replies cannot happen.
   */
  function ToNumber(s: string): (r: NumberValue)
    ensures r.Integer? ==> r.n >= 0
  {
    if |s| > 0 && forall i :: 0 <= i < |s| ==> IsDigit(s[i]) then Integer(DigitsValue(s)) else NonInteger
  }

  /** The index of the row with that id, if the id is an integer held by a row. */
  function Lookup(rows: seq<Summary>, id: NumberValue): (r: Option<nat>)
    ensures r.Some? ==> id.Integer? && r.value < |rows| && rows[r.value].id == id.n
    ensures r.None? <==> id.NonInteger? || forall j :: 0 <= j < |rows| ==> rows[j].id != id.n
  {
    if id.NonInteger? || |rows| == 0 then None
    else if rows[0].id == id.n then Some(0)
    else match Lookup(rows[1..], id)
      case None => None
      case Some(i) => Some(i + 1)
  }

  /** The rows owned by a user, in table order. */
  function Owned(rows: seq<Summary>, userId: string): (r: seq<Summary>)
    ensures forall s :: s in r <==> s in rows && s.userId == userId
    ensures |r| <= |rows|
  {
    if |rows| == 0 then []
    else if rows[0].userId == userId then [rows[0]] + Owned(rows[1..], userId)
    else Owned(rows[1..], userId)
  }

  predicate UniqueIds(rows: seq<Summary>) {
    forall i, j :: 0 <= i < j < |rows| ==> rows[i].id != rows[j].id
  }

  /** With unique ids, the row found for an id is the only one with it. */
  lemma LookupUnique(rows: seq<Summary>, i: nat)
    requires UniqueIds(rows) && i < |rows|
    ensures Lookup(rows, Integer(rows[i].id)) == Some(i)
  {
  }

  /** The `summarize` table, with an autoincrement id. */
  class SummaryStore {
    var rows: seq<Summary>
    var nextId: int

    ghost predicate Valid()
      reads this
    {
      UniqueIds(rows) && forall i :: 0 <= i < |rows| ==> rows[i].id < nextId
    }

    constructor ()
      ensures Valid() && rows == [] && nextId == 1
    {
      rows := [];
      nextId := 1;
    }

    /** `createSummarize`: a new row owned by the user; the table refuses a row without content or file. */
    method Create(userId: string, body: CreateBody) returns (r: Option<Summary>)
      requires Valid()
      modifies this
      ensures Valid()
      ensures body.content.None? || body.pdfFile.None? ==> r.None? && rows == old(rows) && nextId == old(nextId)
      ensures body.content.Some? && body.pdfFile.Some? ==>
        r == Some(Summary(old(nextId), userId, body.content.value, body.pdfFile.value))
        && rows == old(rows) + [r.value] && nextId == old(nextId) + 1
    {
      if body.content.None? || body.pdfFile.None? {
        return None;
      }
      var s := Summary(nextId, userId, body.content.value, body.pdfFile.value);
      rows := rows + [s];
      nextId := nextId + 1;
      return Some(s);
    }

    /** `updateSummarize`: replaces the content of the row with that id; an unknown id raises. */
    method Update(id: NumberValue, content: seq<string>) returns (r: Option<Summary>)
      requires Valid()
      modifies this
      ensures Valid() && nextId == old(nextId)
      ensures Lookup(old(rows), id).None? ==> r.None? && rows == old(rows)
      ensures Lookup(old(rows), id).Some? ==>
        var i := Lookup(old(rows), id).value;
        r == Some(old(rows)[i].(content := content)) && rows == old(rows)[i := r.value]
    {
      var i := Lookup(rows, id);
      if i.None? {
        return None;
      }
      var s := rows[i.value].(content := content);
      rows := rows[i.value := s];
      assert forall j :: 0 <= j < |rows| ==> rows[j].id == old(rows)[j].id;
      return Some(s);
    }

    /** `deleteSummarize`: removes the row with that id; an unknown id raises. */
    method Delete(id: NumberValue) returns (r: Option<Summary>)
      requires Valid()
      modifies this
      ensures Valid() && nextId == old(nextId)
      ensures Lookup(old(rows), id).None? ==> r.None? && rows == old(rows)
      ensures Lookup(old(rows), id).Some? ==>
        var i := Lookup(old(rows), id).value;
        r == Some(old(rows)[i]) && rows == old(rows)[..i] + old(rows)[i + 1..]
    {
      var i := Lookup(rows, id);
      if i.None? {
        return None;
      }
      var s := rows[i.value];
      rows := rows[..i.value] + rows[i.value + 1..];
      assert forall j :: 0 <= j < |rows| ==> rows[j] == old(rows)[if j < i.value then j else j + 1];
      return Some(s);
    }
  }

  /** The controller, over one store. Every handler runs on a response nothing has been written to yet. */
  class SummarizeController {
    const store: SummaryStore

    constructor (store: SummaryStore)
      ensures this.store == store
    {
      this.store := store;
    }

    /** `getAllSummarizes`: the summaries whose owner is the authenticated user. */
    method GetAllSummarizes(userId: string, res: Response<Body>)
      modifies res
      ensures res.writes == old(res.writes) + [Reply(200, Many(Owned(store.rows, userId)))]
    {
      var summaries := Owned(store.rows, userId);
      var _ := res.Send(200, Many(summaries));
    }

    /** `getSummarizeById`: 200 for the owner, 403 for anyone else, 500 when the lookup fails. */
    method GetSummarizeById(userId: string, id: NumberValue, res: Response<Body>)
      modifies res
      ensures var found := Lookup(store.rows, id);
        && (found.None? ==> res.writes == old(res.writes) + [Reply(500, Error(InternalError))])
        && (found.Some? && store.rows[found.value].userId != userId ==> res.writes == old(res.writes) + [Reply(403, Error(Unauthorized))])
        && (found.Some? && store.rows[found.value].userId == userId ==> res.writes == old(res.writes) + [Reply(200, One(store.rows[found.value]))])
    {
      var i := Lookup(store.rows, id);
      if i.None? {
        var _ := res.Send(500, Error(InternalError));
        return;
      }
      var summary := store.rows[i.value];
      if summary.userId != userId {
        var _ := res.Send(403, Error(Unauthorized));
        return;
      }
      var _ := res.Send(200, One(summary));
    }

    /**
     * `createSummarize`: a missing PDF file draws a 400, but the handler does
     * not stop there, so the row is created all the same and the 201 that
     * follows raises; its `catch` then raises too.
     */
    method CreateSummarize(userId: string, body: CreateBody, pdfExists: bool, res: Response<Body>) returns (c: Completion)
      requires res.writes == [] && store.Valid()
      modifies res, store
      ensures store.Valid()
      ensures body.content.None? || body.pdfFile.None? ==> store.rows == old(store.rows)
      ensures body.content.None? && body.pdfFile.Some? && pdfExists ==>
        c == Returned && res.writes == [Reply(500, Error(InternalError))]
      ensures (body.content.None? || body.pdfFile.None?) && !(body.pdfFile.Some? && pdfExists) ==>
        c == Rejected && res.writes == [Reply(400, Error(InvalidPdf)), Reply(500, Error(InternalError))]
      ensures body.content.Some? && body.pdfFile.Some? ==>
        var created := Summary(old(store.nextId), userId, body.content.value, body.pdfFile.value);
        && store.rows == old(store.rows) + [created]
        && (pdfExists ==> c == Returned && res.writes == [Reply(201, One(created))])
        && (!pdfExists ==>
              c == Rejected && res.writes == [Reply(400, Error(InvalidPdf)), Reply(201, One(created)), Reply(500, Error(InternalError))])
    {
      if !(body.pdfFile.Some? && pdfExists) {
        var _ := res.Send(400, Error(InvalidPdf));
      }
      var summary := store.Create(userId, body);
      if summary.Some? {
        var sent := res.Send(201, One(summary.value));
        if sent {
          return Returned;
        }
      }
      var sent := res.Send(500, Error(InternalError));
      c := if sent then Returned else Rejected;
    }

    /**
     * `updateSummarize`: 403 and no update for another user's summary. When
     * the lookup fails it sends 404 and carries on: the update is attempted,
     * fails in turn, and the 500 of its `catch` raises.
     */
    method UpdateSummarize(userId: string, id: NumberValue, content: seq<string>, res: Response<Body>) returns (c: Completion)
      requires res.writes == [] && store.Valid()
      modifies res, store
      ensures store.Valid()
      ensures var found := Lookup(old(store.rows), id);
        && (found.None? ==>
              c == Rejected && store.rows == old(store.rows) && res.writes == [Reply(404, Error(NotFound)), Reply(500, Error(InternalError))])
        && (found.Some? && old(store.rows)[found.value].userId != userId ==>
              c == Returned && store.rows == old(store.rows) && res.writes == [Reply(403, Error(Unauthorized))])
        && (found.Some? && old(store.rows)[found.value].userId == userId ==>
              var updated := old(store.rows)[found.value].(content := content);
              c == Returned && store.rows == old(store.rows)[found.value := updated] && res.writes == [Reply(200, One(updated))])
    {
      var i := Lookup(store.rows, id);
      if i.None? {
        var _ := res.Send(404, Error(NotFound));
      } else if store.rows[i.value].userId != userId {
        var _ := res.Send(403, Error(Unauthorized));
        return Returned;
      }
      var updated := store.Update(id, content);
      if updated.Some? {
        var sent := res.Send(200, One(updated.value));
        if sent {
          return Returned;
        }
      }
      var sent := res.Send(500, Error(InternalError));
      c := if sent then Returned else Rejected;
    }

    /**
     * `deleteSummarize`: 403 and no deletion for another user's summary; 204
     * after deleting one's own. A failed lookup sends 404, and the deletion
     * is still attempted, fails, and the 500 of its `catch` raises.
     */
    method DeleteSummarize(userId: string, id: NumberValue, res: Response<Body>) returns (c: Completion)
      requires res.writes == [] && store.Valid()
      modifies res, store
      ensures store.Valid()
      ensures var found := Lookup(old(store.rows), id);
        && (found.None? ==>
              c == Rejected && store.rows == old(store.rows) && res.writes == [Reply(404, Error(NotFound)), Reply(500, Error(InternalError))])
        && (found.Some? && old(store.rows)[found.value].userId != userId ==>
              c == Returned && store.rows == old(store.rows) && res.writes == [Reply(403, Error(Unauthorized))])
        && (found.Some? && old(store.rows)[found.value].userId == userId ==>
              c == Returned && store.rows == old(store.rows)[..found.value] + old(store.rows)[found.value + 1..]
              && res.writes == [Reply(204, NoContent)])
    {
      var i := Lookup(store.rows, id);
      if i.None? {
        var _ := res.Send(404, Error(NotFound));
      } else if store.rows[i.value].userId != userId {
        var _ := res.Send(403, Error(Unauthorized));
        return Returned;
      }
      var deleted := store.Delete(id);
      if deleted.Some? {
        var sent := res.Send(204, NoContent);
        if sent {
          return Returned;
        }
      }
      var sent := res.Send(500, Error(InternalError));
      c := if sent then Returned else Rejected;
    }
  }

  /** The decimal rendering of an id converts back to that id. */
  lemma ToNumberOfId(n: nat)
    ensures ToNumber(NatToString(n)) == Integer(n)
  {
    NatToStringRoundTrip(n);
  }

  /** A path segment that is not a number finds no summary, so reading it answers 500 rather than 400. */
  lemma NonNumericIdNotFound(rows: seq<Summary>, s: string)
    requires |s| > 0 && !IsDigit(s[0])
    ensures ToNumber(s) == NonInteger && Lookup(rows, ToNumber(s)).None?
  {
  }

  /** After an owner's update, reading the same id gives the new content. */
  lemma UpdateThenRead(rows: seq<Summary>, i: nat, content: seq<string>)
    requires UniqueIds(rows) && i < |rows|
    ensures var after := rows[i := rows[i].(content := content)];
      Lookup(after, Integer(rows[i].id)) == Some(i) && after[i].content == content && after[i].userId == rows[i].userId
  {
    var after := rows[i := rows[i].(content := content)];
    assert forall j :: 0 <= j < |after| ==> after[j].id == rows[j].id;
    LookupUnique(after, i);
  }

  /** After a deletion the id is gone and every other row is still found. */
  lemma {:induction false} DeleteThenRead(rows: seq<Summary>, i: nat)
    requires UniqueIds(rows) && i < |rows|
    ensures var after := rows[..i] + rows[i + 1..];
      && Lookup(after, Integer(rows[i].id)).None?
      && forall j :: 0 <= j < |rows| && j != i ==> Lookup(after, Integer(rows[j].id)).Some?
  {
    var after := rows[..i] + rows[i + 1..];
    assert forall k :: 0 <= k < |after| ==> after[k] == rows[if k < i then k else k + 1];
    forall j | 0 <= j < |rows| && j != i
      ensures Lookup(after, Integer(rows[j].id)).Some?
    {
      var k := if j < i then j else j - 1;
      assert after[k].id == rows[j].id;
    }
  }

  /** Listing shows a user none of anyone else's summaries, and the whole table only when they own every row. */
  lemma {:induction false} OwnedBelongsToUser(rows: seq<Summary>, userId: string)
    ensures var r := Owned(rows, userId);
      forall k :: 0 <= k < |r| ==> r[k].userId == userId
    ensures |Owned(rows, userId)| == |rows| ==> Owned(rows, userId) == rows
    decreases |rows|
  {
    if |rows| > 0 {
      OwnedBelongsToUser(rows[1..], userId);
      if rows[0].userId != userId {
        assert |Owned(rows, userId)| <= |rows[1..]|;
      }
    }
  }

  /**
   * Listing keeps table order: the summaries owned in a table made of two parts
   * are those owned in the first part followed by those owned in the second.
   */
  lemma {:induction false} OwnedKeepsTableOrder(a: seq<Summary>, b: seq<Summary>, userId: string)
    ensures Owned(a + b, userId) == Owned(a, userId) + Owned(b, userId)
    decreases |a|
  {
    if |a| == 0 {
      assert a + b == b;
    } else {
      var ab := a + b;
      assert ab[0] == a[0] && ab[1..] == a[1..] + b;
      OwnedKeepsTableOrder(a[1..], b, userId);
      if a[0].userId == userId {
        calc {
          Owned(ab, userId);
          [a[0]] + Owned(a[1..] + b, userId);
          [a[0]] + (Owned(a[1..], userId) + Owned(b, userId));
          ([a[0]] + Owned(a[1..], userId)) + Owned(b, userId);
        }
      }
    }
  }
}
