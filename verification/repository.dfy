/** The saved slips and the slip being edited: `saveSlip`, `loadSlip` and
    `deleteSlip`, with the browser dialogs turned into results. */
module Repository {
  import opened Wrappers
  import opened Text
  import opened Slips
  import Seqs

  /** The editor's state: the saved slips in insertion order, and the
      current slip, if one is open. */
  datatype Session = Session(slips: seq<Slip>, current: Option<Slip>)

  /** Why `saveSlip` returned without saving: no slip is open (a silent
      return), or the client name is blank (an alert). */
  datatype SaveError = NoCurrentSlip | MissingClientName

  /** `findIndex` by id: the position of the first slip with the id, or -1. */
  function FindIndex(slips: seq<Slip>, id: int): (r: int)
    ensures -1 <= r < |slips|
    ensures r >= 0 ==> slips[r].id == id && forall j :: 0 <= j < r ==> slips[j].id != id
    ensures r == -1 <==> forall j :: 0 <= j < |slips| ==> slips[j].id != id
  {
    if |slips| == 0 then -1
    else if slips[0].id == id then 0
    else
      var k := FindIndex(slips[1..], id);
      if k < 0 then -1 else k + 1
  }

  /** The repository half of `saveSlip`: the first slip with the same id is
      replaced where it stands; without one the slip is appended. */
  function Upsert(slips: seq<Slip>, slip: Slip): (r: seq<Slip>)
    ensures var k := FindIndex(slips, slip.id);
      && (k >= 0 ==> |r| == |slips| && r[k] == slip
                     && forall j :: 0 <= j < |slips| && j != k ==> r[j] == slips[j])
      && (k < 0 ==> |r| == |slips| + 1 && r[..|slips|] == slips && r[|slips|] == slip)
  {
    var k := FindIndex(slips, slip.id);
    if k >= 0 then slips[k := slip] else slips + [slip]
  }

  /** After a save the slip is found under its id, at the position of the
      first slip that had the id or, failing one, at the end. */
  lemma UpsertFinds(slips: seq<Slip>, slip: Slip)
    ensures var r := Upsert(slips, slip);
      var k := FindIndex(r, slip.id);
      && k >= 0 && r[k] == slip
      && k == (if FindIndex(slips, slip.id) >= 0 then FindIndex(slips, slip.id) else |slips|)
  {
    var r := Upsert(slips, slip);
    var k0 := FindIndex(slips, slip.id);
    var m := if k0 >= 0 then k0 else |slips|;
    assert forall j :: 0 <= j < m ==> r[j] == slips[j];
    FirstAt(r, slip.id, m);
  }

  /** The first position holding an id is what `FindIndex` returns. */
  lemma FirstAt(slips: seq<Slip>, id: int, m: nat)
    requires m < |slips| && slips[m].id == id
    requires forall j :: 0 <= j < m ==> slips[j].id != id
    ensures FindIndex(slips, id) == m
  {
  }

  /** Saving the same slip twice gives the same repository as saving it once. */
  lemma UpsertIdempotent(slips: seq<Slip>, slip: Slip)
    ensures Upsert(Upsert(slips, slip), slip) == Upsert(slips, slip)
  {
    var r := Upsert(slips, slip);
    UpsertFinds(slips, slip);
    var k := FindIndex(r, slip.id);
    assert r[k := slip] == r;
  }

  /** No two saved slips share an id. */
  predicate UniqueSlipIds(slips: seq<Slip>) {
    forall i, j :: 0 <= i < j < |slips| ==> slips[i].id != slips[j].id
  }

  /** Saving keeps the ids unique, and the saved slip is then the only one
      with its id. */
  lemma UpsertUniqueIds(slips: seq<Slip>, slip: Slip)
    requires UniqueSlipIds(slips)
    ensures UniqueSlipIds(Upsert(slips, slip))
    ensures forall j :: 0 <= j < |Upsert(slips, slip)| ==>
      (Upsert(slips, slip)[j].id == slip.id <==> Upsert(slips, slip)[j] == slip)
  {
    var r := Upsert(slips, slip);
    var k := FindIndex(slips, slip.id);
    forall i, j | 0 <= i < j < |r|
      ensures r[i].id != r[j].id
    {
      if k >= 0 {
        if i != k && j != k {
          assert r[i] == slips[i] && r[j] == slips[j];
        }
      } else if j < |slips| {
        assert r[i] == slips[i] && r[j] == slips[j];
      }
    }
    UpsertFinds(slips, slip);
    forall j | 0 <= j < |r| && r[j].id == slip.id
      ensures r[j] == slip
    {
      var m := FindIndex(r, slip.id);
      assert j == m;
    }
  }

  /** `saveSlip`: with no current slip nothing happens; a client name that
      trims to nothing is refused; otherwise the current slip is saved into
      the repository and stays current. A refusal leaves the session as it
      was, since the handler returns before any state change. */
  function SaveSlip(sess: Session): (r: Result<Session, SaveError>)
    ensures r.Failure? <==> sess.current.None? || IsBlank(sess.current.value.clientName)
    ensures r.Failure? ==> (r.error == NoCurrentSlip <==> sess.current.None?)
    ensures r.Success? ==> r.value == Session(Upsert(sess.slips, sess.current.value), sess.current)
  {
    match sess.current
    case None => Failure(NoCurrentSlip)
    case Some(s) =>
      if IsBlank(s.clientName) then Failure(MissingClientName)
      else Success(sess.(slips := Upsert(sess.slips, s)))
  }

  /** A client name of only whitespace is refused with the missing-name error. */
  lemma WhitespaceNameRefused(sess: Session)
    requires sess.current.Some?
    requires forall i :: 0 <= i < |sess.current.value.clientName| ==> IsWhitespace(sess.current.value.clientName[i])
    ensures SaveSlip(sess) == Failure(MissingClientName)
  {
    BlankIffAllWhitespace(sess.current.value.clientName);
  }

  /** A slip whose client name holds any non-whitespace character is saved. */
  lemma NamedSlipSaved(sess: Session, i: nat)
    requires sess.current.Some?
    requires i < |sess.current.value.clientName| && !IsWhitespace(sess.current.value.clientName[i])
    ensures SaveSlip(sess).Success?
  {
    BlankIffAllWhitespace(sess.current.value.clientName);
  }

  /** Saving again right after a successful save changes nothing. */
  lemma SaveIdempotent(sess: Session)
    requires SaveSlip(sess).Success?
    ensures SaveSlip(SaveSlip(sess).value) == SaveSlip(sess)
  {
    UpsertIdempotent(sess.slips, sess.current.value);
  }

  /** `loadSlip`: the chosen slip becomes the current one; the saved slips
      are not touched. */
  function LoadSlip(sess: Session, slip: Slip): (r: Session)
    ensures r.slips == sess.slips && r.current == Some(slip)
  {
    sess.(current := Some(slip))
  }

  /** Loading a slip and saving it without edits leaves the repository as
      it was, when the slip was the first with its id. */
  lemma LoadThenSaveUnchanged(sess: Session, k: nat)
    requires k < |sess.slips| && FindIndex(sess.slips, sess.slips[k].id) == k
    requires !IsBlank(sess.slips[k].clientName)
    ensures SaveSlip(LoadSlip(sess, sess.slips[k])).value.slips == sess.slips
  {
    assert sess.slips[k := sess.slips[k]] == sess.slips;
  }

  /** `deleteSlip` once confirmed: every saved slip with the id is removed,
      the others keep their order, and the current slip is closed exactly
      when it has that id. */
  function DeleteSlip(sess: Session, id: int): (r: Session)
    ensures |r.slips| <= |sess.slips|
    ensures forall i :: 0 <= i < |r.slips| ==> r.slips[i] in sess.slips && r.slips[i].id != id
    ensures forall i :: 0 <= i < |sess.slips| && sess.slips[i].id != id ==> sess.slips[i] in r.slips
    ensures r.current.None? <==> sess.current.None? || sess.current.value.id == id
    ensures r.current.Some? ==> r.current == sess.current
  {
    var slips := Seqs.Filter(sess.slips, (s: Slip) => s.id != id);
    var current := if sess.current.Some? && sess.current.value.id == id then None else sess.current;
    Session(slips, current)
  }

  /** Deleting an id no saved slip carries leaves the saved slips as they were. */
  lemma DeleteAbsentSlip(sess: Session, id: int)
    requires forall i :: 0 <= i < |sess.slips| ==> sess.slips[i].id != id
    ensures DeleteSlip(sess, id).slips == sess.slips
  {
    Seqs.FilterAll(sess.slips, (s: Slip) => s.id != id);
  }

  /** Deletion works slip by slip: deleting from a concatenation deletes
      from each part, so the survivors keep their relative order. */
  lemma DeleteSlipsInOrder(a: seq<Slip>, b: seq<Slip>, id: int)
    ensures DeleteSlip(Session(a + b, None), id).slips
         == DeleteSlip(Session(a, None), id).slips + DeleteSlip(Session(b, None), id).slips
  {
    Seqs.FilterAppend(a, b, (s: Slip) => s.id != id);
  }

  /** Deleting twice by the same id is the same as deleting once. */
  lemma DeleteSlipIdempotent(sess: Session, id: int)
    ensures DeleteSlip(DeleteSlip(sess, id), id) == DeleteSlip(sess, id)
  {
    var r := DeleteSlip(sess, id);
    DeleteAbsentSlip(r, id);
  }

  /** With unique ids, deleting the id of slip `k` removes exactly that slip. */
  lemma DeleteUniqueSlip(sess: Session, k: nat)
    requires UniqueSlipIds(sess.slips) && k < |sess.slips|
    ensures DeleteSlip(sess, sess.slips[k].id).slips == sess.slips[..k] + sess.slips[k + 1..]
  {
    var s := sess.slips;
    assert s == s[..k] + [s[k]] + s[k + 1..];
    Seqs.FilterDropsOne(s[..k], s[k], s[k + 1..], (x: Slip) => x.id != s[k].id);
  }
}
