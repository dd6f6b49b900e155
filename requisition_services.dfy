/** The requisition table (src/services/requisitionServices.js): inserting a new
    requisition and the three listing queries. */
module RequisitionServices {
  import opened Seqs
  import opened Schema

  /** The row createRequisition inserts: the arguments verbatim, a falsy image URL
      stored as null, and the fixed initial state PENDING. */
  function NewRequisition(
    id: int, idUser: UserId, idComplex: ComplexId,
    title: string, content: string, location: string, imgUrl: Field, priority: string)
    : (r: Requisition)
    ensures r.status == Pending
    ensures !Truthy(imgUrl) ==> r.imgUrl == None
    ensures Truthy(imgUrl) ==> r.imgUrl == Some(imgUrl.s)
    ensures r.id == id && r.idUser == idUser && r.idComplex == idComplex
    ensures r.title == title && r.content == content && r.location == location && r.priority == priority
  {
    Requisition(id, idUser, idComplex, title, content, location,
                if Truthy(imgUrl) then Some(imgUrl.s) else None,
                Pending, priority)
  }

  /** getUserRequisitions: `findMany({ where: { id_User } })`. */
  function GetUserRequisitions(rows: seq<Requisition>, u: UserId): (r: seq<Requisition>)
    ensures |r| <= |rows|
    ensures forall x :: x in r <==> x in rows && x.idUser == u
    ensures forall x :: multiset(r)[x] == if x.idUser == u then multiset(rows)[x] else 0
  {
    FilterCounts(rows, (x: Requisition) => x.idUser == u);
    Filter(rows, (x: Requisition) => x.idUser == u)
  }

  /** getAllRequisitions: `findMany()`. */
  function GetAllRequisitions(rows: seq<Requisition>): seq<Requisition> {
    rows
  }

  /** getRequisitionsByUserType: a MORADOR gets its own requisitions, every other type
      (NAO_VALIDADO included) gets all of them. */
  function GetRequisitionsByUserType(roles: RoleConstants, rows: seq<Requisition>, u: UserId, userType: Role)
    : (r: seq<Requisition>)
    ensures userType == roles.morador ==> forall x :: x in r <==> x in rows && x.idUser == u
    ensures userType == roles.morador ==>
              forall x :: multiset(r)[x] == if x.idUser == u then multiset(rows)[x] else 0
    ensures userType != roles.morador ==> r == rows
  {
    if userType == roles.morador then GetUserRequisitions(rows, u) else GetAllRequisitions(rows)
  }

  /** Whatever the type, the listing never shows a requisition that is not stored. */
  lemma ListingIsSubsetOfAll(roles: RoleConstants, rows: seq<Requisition>, u: UserId, userType: Role)
    ensures forall x :: x in GetRequisitionsByUserType(roles, rows, u, userType) ==> x in GetAllRequisitions(rows)
  {
  }

  /** A newly inserted requisition shows up, last, in its creator's own listing and in
      no other user's. */
  lemma NewRequisitionListedForCreatorOnly(rows: seq<Requisition>, x: Requisition, v: UserId)
    ensures GetUserRequisitions(rows + [x], x.idUser) == GetUserRequisitions(rows, x.idUser) + [x]
    ensures v != x.idUser ==> GetUserRequisitions(rows + [x], v) == GetUserRequisitions(rows, v)
  {
    var mine := (y: Requisition) => y.idUser == x.idUser;
    FilterAppend(rows, [x], mine);
    assert Filter([x], mine) == [x];
    assert GetUserRequisitions(rows + [x], x.idUser) == Filter(rows + [x], mine);
    if v != x.idUser {
      var theirs := (y: Requisition) => y.idUser == v;
      FilterAppend(rows, [x], theirs);
      assert Filter([x], theirs) == [];
      assert GetUserRequisitions(rows + [x], v) == Filter(rows + [x], theirs);
    }
  }

  class RequisitionStore {
    var rows: seq<Requisition>
    /** The next value of the table's auto-incremented id. */
    var nextId: int

    ghost predicate Valid()
      reads this
    {
      forall i :: 0 <= i < |rows| ==> rows[i].id < nextId
    }

    constructor ()
      ensures Valid() && rows == []
    {
      rows := [];
      nextId := 1;
    }

    /** createRequisition: insert one row and return it; the rows already stored are kept. */
    method CreateRequisition(
      idUser: UserId, idComplex: ComplexId,
      title: string, content: string, location: string, imgUrl: Field, priority: string)
      returns (created: Requisition)
      requires Valid()
      modifies this
      ensures Valid()
      ensures created == NewRequisition(old(nextId), idUser, idComplex, title, content, location, imgUrl, priority)
      ensures rows == old(rows) + [created]
      ensures forall i :: 0 <= i < |old(rows)| ==> old(rows)[i].id != created.id
    {
      created := NewRequisition(nextId, idUser, idComplex, title, content, location, imgUrl, priority);
      rows := rows + [created];
      nextId := nextId + 1;
    }
  }
}
