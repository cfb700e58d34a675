/** The merchants API: GET lists the caller's merchants followed by the
    global merchants they have not adopted; POST creates a user merchant,
    its new labels and its default-label links in one transaction
    (src/app/api/merchants/route.ts). */
module Merchants {
  import opened Common
  import MerchantForm

  const UnknownMerchant: string := "Unknown Merchant"
  const NoContent: int := 204
  const ServerError: int := 500

  /** A row of the global `merchants` table. */
  datatype MerchantRow = MerchantRow(id: int, name: string, pfpLocation: Option<string>, color: Option<string>)

  /** A row of the `labels` table. */
  datatype LabelRow = LabelRow(id: int, userId: string, name: string, color: string)

  /** A `userMerchants` row as the GET query returns it, with the
      `underlyingMerchant` relation and the labels of its
      `defaultLabels` links loaded. */
  datatype UserMerchantView = UserMerchantView(
    id: int,
    merchantId: Option<int>,
    name: Option<string>,
    pfpLocation: Option<string>,
    color: Option<string>,
    underlying: Option<MerchantRow>,
    defaultLabels: Option<seq<LabelRow>>)

  /** `MerchantDTO`. */
  datatype MerchantDto = MerchantDto(
    id: int,
    name: string,
    pfpLocation: Option<string>,
    color: Option<string>,
    defaultLabels: seq<LabelDto>)

  // ---------------------------------------------------------------- GET

  function LabelToDto(l: LabelRow): LabelDto {
    LabelDto(l.id, l.name, l.color)
  }

  /** `(um.defaultLabels ?? []).map(...)`: one DTO per linked label, in order. */
  function LabelDtos(links: Option<seq<LabelRow>>): (r: seq<LabelDto>)
    ensures links.None? ==> r == []
    ensures links.Some? ==> |r| == |links.value|
    ensures links.Some? ==>
      forall k :: 0 <= k < |r| ==> r[k] == LabelDto(links.value[k].id, links.value[k].name, links.value[k].color)
  {
    if links.None? then [] else MapLabels(links.value)
  }

  function MapLabels(ls: seq<LabelRow>): (r: seq<LabelDto>)
    ensures |r| == |ls| && forall k :: 0 <= k < |r| ==> r[k] == LabelToDto(ls[k])
  {
    if ls == [] then [] else [LabelToDto(ls[0])] + MapLabels(ls[1..])
  }

  /** The underlying merchant's value of a field, when there is one. */
  function UnderlyingPfp(um: UserMerchantView): Option<string> {
    if um.underlying.Some? then um.underlying.value.pfpLocation else None
  }

  function UnderlyingColor(um: UserMerchantView): Option<string> {
    if um.underlying.Some? then um.underlying.value.color else None
  }

  /** The DTO of a user merchant: each field is its own value, else the
      underlying merchant's, else "Unknown Merchant" for the name and
      absent for the others. `??` skips only null, so an own name "" is kept. */
  function UserMerchantDto(um: UserMerchantView): (d: MerchantDto)
    ensures d.id == um.id
    ensures um.name.Some? ==> d.name == um.name.value
    ensures um.name.None? && um.underlying.Some? ==> d.name == um.underlying.value.name
    ensures um.name.None? && um.underlying.None? ==> d.name == UnknownMerchant
    ensures um.pfpLocation.Some? ==> d.pfpLocation == um.pfpLocation
    ensures um.pfpLocation.None? ==> d.pfpLocation == UnderlyingPfp(um)
    ensures um.color.Some? ==> d.color == um.color
    ensures um.color.None? ==> d.color == UnderlyingColor(um)
    ensures d.defaultLabels == LabelDtos(um.defaultLabels)
  {
    MerchantDto(
      um.id,
      if um.name.Some? then um.name.value
      else if um.underlying.Some? then um.underlying.value.name
      else UnknownMerchant,
      Coalesce(um.pfpLocation, UnderlyingPfp(um)),
      Coalesce(um.color, UnderlyingColor(um)),
      LabelDtos(um.defaultLabels))
  }

  /** The DTO of a global merchant: it carries no default labels. */
  function GlobalDto(m: MerchantRow): (d: MerchantDto)
    ensures d.id == m.id && d.name == m.name && d.defaultLabels == []
    ensures d.pfpLocation == m.pfpLocation && d.color == m.color
  {
    MerchantDto(m.id, m.name, m.pfpLocation, m.color, [])
  }

  /** `referencedMerchantIds`: the non-null `merchantId`s, in order. */
  function ReferencedIds(ums: seq<UserMerchantView>): (ids: seq<int>)
    ensures forall x :: x in ids <==> exists k :: 0 <= k < |ums| && ums[k].merchantId == Some(x)
  {
    if ums == [] then []
    else
      var rest := ReferencedIds(ums[1..]);
      assert forall k :: 1 <= k < |ums| ==> ums[k] == ums[1..][k - 1];
      (if ums[0].merchantId.Some? then [ums[0].merchantId.value] else []) + rest
  }

  /** `notInArray(merchants.id, ids)`: the global merchants whose id is not
      listed, in query order. */
  function Unreferenced(globals: seq<MerchantRow>, ids: seq<int>): (r: seq<MerchantRow>)
    ensures |r| <= |globals|
    ensures forall m :: m in r <==> m in globals && m.id !in ids
  {
    if globals == [] then []
    else (if globals[0].id in ids then [] else [globals[0]]) + Unreferenced(globals[1..], ids)
  }

  function MapUserMerchants(ums: seq<UserMerchantView>): (r: seq<MerchantDto>)
    ensures |r| == |ums| && forall k :: 0 <= k < |r| ==> r[k] == UserMerchantDto(ums[k])
  {
    if ums == [] then [] else [UserMerchantDto(ums[0])] + MapUserMerchants(ums[1..])
  }

  function MapGlobals(ms: seq<MerchantRow>): (r: seq<MerchantDto>)
    ensures |r| == |ms| && forall k :: 0 <= k < |r| ==> r[k] == GlobalDto(ms[k])
  {
    if ms == [] then [] else [GlobalDto(ms[0])] + MapGlobals(ms[1..])
  }

  /** `allMerchants`: the caller's merchants first, each in query order,
      then the global merchants none of them is built on. */
  function ListMerchants(ums: seq<UserMerchantView>, globals: seq<MerchantRow>): (r: seq<MerchantDto>)
    ensures var kept := Unreferenced(globals, ReferencedIds(ums));
      && |r| == |ums| + |kept|
      && (forall k :: 0 <= k < |ums| ==> r[k] == UserMerchantDto(ums[k]))
      && (forall k :: 0 <= k < |kept| ==> r[|ums| + k] == GlobalDto(kept[k]))
  {
    MapUserMerchants(ums) + MapGlobals(Unreferenced(globals, ReferencedIds(ums)))
  }

  /** A global merchant some user merchant is built on is not listed among
      the globals. */
  lemma ReferencedGlobalExcluded(ums: seq<UserMerchantView>, globals: seq<MerchantRow>, j: nat)
    requires j < |ums| && ums[j].merchantId.Some?
    ensures var r := ListMerchants(ums, globals);
      forall k :: |ums| <= k < |r| ==> r[k].id != ums[j].merchantId.value
  {
    var ids := ReferencedIds(ums);
    var kept := Unreferenced(globals, ids);
    var r := ListMerchants(ums, globals);
    assert ums[j].merchantId.value in ids;
    forall k | |ums| <= k < |r|
      ensures r[k].id != ums[j].merchantId.value
    {
      assert r[k] == GlobalDto(kept[k - |ums|]);
      assert kept[k - |ums|] in kept;
    }
  }

  /** A global merchant nobody is built on is listed, after every user merchant. */
  lemma UnreferencedGlobalListed(ums: seq<UserMerchantView>, globals: seq<MerchantRow>, m: MerchantRow)
    requires m in globals
    requires forall k :: 0 <= k < |ums| ==> ums[k].merchantId != Some(m.id)
    ensures var r := ListMerchants(ums, globals);
      exists k :: |ums| <= k < |r| && r[k] == GlobalDto(m)
  {
    var kept := Unreferenced(globals, ReferencedIds(ums));
    assert m in kept;
    var i :| 0 <= i < |kept| && kept[i] == m;
    assert ListMerchants(ums, globals)[|ums| + i] == GlobalDto(m);
  }

  // ---------------------------------------------------------------- POST

  /** A `userMerchants` row as POST inserts it: `merchantId` is never set. */
  datatype UserMerchantRow = UserMerchantRow(
    id: int,
    userId: string,
    name: Option<string>,
    color: Option<string>,
    pfpLocation: Option<string>)

  /** A `userMerchantDefaultLabels` row. */
  datatype LinkRow = LinkRow(userMerchantId: int, labelId: int)

  /** `data.defaultLabels ?? []`. */
  function Requested(f: MerchantForm.CreateMerchant): seq<int> {
    if f.defaultLabels.Some? then f.defaultLabels.value else []
  }

  function NewLabels(f: MerchantForm.CreateMerchant): seq<MerchantForm.NewLabel> {
    if f.newDefaultLabels.Some? then f.newDefaultLabels.value else []
  }

  /** The label rows `tx.insert(labels)...returning()` yields, numbered
      from the serial's next value in insertion order. */
  function NewLabelRows(userId: string, news: seq<MerchantForm.NewLabel>, first: int): (r: seq<LabelRow>)
    ensures |r| == |news|
    ensures forall k :: 0 <= k < |r| ==> r[k] == LabelRow(first + k, userId, news[k].name, news[k].color)
    decreases |news|
  {
    if news == [] then []
    else [LabelRow(first, userId, news[0].name, news[0].color)] + NewLabelRows(userId, news[1..], first + 1)
  }

  /** `first, first + 1, ..., first + n - 1`. */
  function Serials(first: int, n: nat): (r: seq<int>)
    ensures |r| == n && forall k :: 0 <= k < n ==> r[k] == first + k
  {
    if n == 0 then [] else Serials(first, n - 1) + [first + n - 1]
  }

  /** `defaultLabelIds` once the transaction has pushed the new labels'
      ids: the requested ids, then the created ones in insertion order. */
  function LinkIds(f: MerchantForm.CreateMerchant, firstLabelId: int): (ids: seq<int>)
    ensures |ids| == |Requested(f)| + |NewLabels(f)|
    ensures ids[..|Requested(f)|] == Requested(f)
    ensures ids[|Requested(f)|..] == Serials(firstLabelId, |NewLabels(f)|)
  {
    Requested(f) + Serials(firstLabelId, |NewLabels(f)|)
  }

  /** `defaultLabelIds.map(id => ({userMerchantId, labelId: id}))`: one
      link per id, in order, all to the new merchant. */
  function Links(merchantId: int, ids: seq<int>): (r: seq<LinkRow>)
    ensures |r| == |ids|
    ensures forall k :: 0 <= k < |r| ==> r[k] == LinkRow(merchantId, ids[k])
  {
    if ids == [] then [] else [LinkRow(merchantId, ids[0])] + Links(merchantId, ids[1..])
  }

  /** `[...data.defaultLabels ?? []]`, then `defaultLabelIds.push` of each
      created label's id in the order `returning()` lists them. */
  method CollectLinkIds(f: MerchantForm.CreateMerchant, created: seq<LabelRow>, first: int)
    returns (defaultLabelIds: seq<int>)
    requires |created| == |NewLabels(f)|
    requires forall k :: 0 <= k < |created| ==> created[k].id == first + k
    ensures defaultLabelIds == LinkIds(f, first)
  {
    defaultLabelIds := Requested(f);
    if f.newDefaultLabels.Some? {
      var i := 0;
      while i < |created|
        invariant 0 <= i <= |created|
        invariant defaultLabelIds == Requested(f) + Serials(first, i)
      {
        defaultLabelIds := defaultLabelIds + [created[i].id];
        i := i + 1;
      }
    }
  }

  /** The tables the transaction inserts into. */
  datatype Table = LabelsTable | UserMerchantsTable | LinksTable

  /** One `tx.insert(table).values(rows)` statement: its table and how many
      rows it passes. */
  datatype Insert = Insert(table: Table, rows: nat)

  /** The inserts the transaction issues, in order: the new labels whenever
      `newDefaultLabels` is given (an empty array is truthy), the merchant,
      then the links, however many there are. */
  function Inserts(f: MerchantForm.CreateMerchant): (r: seq<Insert>)
    ensures Insert(UserMerchantsTable, 1) in r
    ensures Insert(LinksTable, |LinkIds(f, 0)|) in r
    ensures f.newDefaultLabels.Some? <==> Insert(LabelsTable, |NewLabels(f)|) in r
    ensures forall i :: i in r ==> i.table != LabelsTable || i.rows == |NewLabels(f)|
  {
    (if f.newDefaultLabels.Some? then [Insert(LabelsTable, |NewLabels(f)|)] else [])
      + [Insert(UserMerchantsTable, 1), Insert(LinksTable, |Requested(f)| + |NewLabels(f)|)]
  }

  /** drizzle's `values([])` throws: some insert passes no rows. */
  predicate EmptyValues(inserts: seq<Insert>) {
    exists k :: 0 <= k < |inserts| && inserts[k].rows == 0
  }

  /** As written, the transaction throws exactly when `newDefaultLabels` is
      an empty array or when there is no label to link, so a merchant
      created without labels always fails. */
  lemma EmptyInsertsFail(f: MerchantForm.CreateMerchant)
    ensures EmptyValues(Inserts(f)) <==>
      f.newDefaultLabels == Some([]) || (Requested(f) == [] && NewLabels(f) == [])
  {
    var r := Inserts(f);
    if f.newDefaultLabels == Some([]) {
      assert r[0].rows == 0;
    }
    if Requested(f) == [] && NewLabels(f) == [] {
      assert r[|r| - 1].rows == 0;
    }
  }

  /** The inserts that pass at least one row, in order. */
  function NonEmptyInserts(inserts: seq<Insert>): (r: seq<Insert>)
    ensures forall i :: i in r <==> i in inserts && i.rows > 0
  {
    if inserts == [] then []
    else (if inserts[0].rows == 0 then [] else [inserts[0]]) + NonEmptyInserts(inserts[1..])
  }

  /** The transaction with each insert skipped when it has no rows: it never
      calls `values([])`, and it still inserts the merchant and every row
      the written transaction would. */
  function GuardedInserts(f: MerchantForm.CreateMerchant): (r: seq<Insert>)
    ensures !EmptyValues(r)
    ensures Insert(UserMerchantsTable, 1) in r
    ensures forall i :: i in r <==> i in Inserts(f) && i.rows > 0
  {
    var r := NonEmptyInserts(Inserts(f));
    assert forall k :: 0 <= k < |r| ==> r[k] in r;
    r
  }

  /** The tables POST writes, with the two serial counters. */
  class MerchantStore {
    var labels: seq<LabelRow>
    var userMerchants: seq<UserMerchantRow>
    var links: seq<LinkRow>
    var nextLabelId: int
    var nextMerchantId: int

    /** Every serial id handed out so far is below the counter. */
    predicate Valid()
      reads this
    {
      && (forall k :: 0 <= k < |labels| ==> labels[k].id < nextLabelId)
      && (forall k :: 0 <= k < |userMerchants| ==> userMerchants[k].id < nextMerchantId)
    }

    constructor ()
      ensures labels == [] && userMerchants == [] && links == []
      ensures nextLabelId == 1 && nextMerchantId == 1 && Valid()
    {
      labels, userMerchants, links := [], [], [];
      nextLabelId, nextMerchantId := 1, 1;
    }

    /** POST /api/merchants. `body` is the request body when it is JSON of
        the schema's field types and None otherwise; `userId` is the
        x-user-id header; `txFails` says that the database failed a
        statement of the transaction. An insert without rows fails too.
        A failure rolls the transaction back, and every failure, including
        a rejected body, answers 500. */
    method Post(body: Option<MerchantForm.CreateMerchant>, userId: string, txFails: bool) returns (status: int)
      requires Valid()
      modifies this
      ensures Valid()
      ensures body.None? || !MerchantForm.Accepted(body.value) || EmptyValues(Inserts(body.value)) || txFails ==>
        status == ServerError &&
        labels == old(labels) && userMerchants == old(userMerchants) && links == old(links) &&
        nextLabelId == old(nextLabelId) && nextMerchantId == old(nextMerchantId)
      ensures body.Some? && MerchantForm.Accepted(body.value) && !EmptyValues(Inserts(body.value)) && !txFails ==>
        var f := body.value;
        && status == NoContent
        && labels == old(labels) + NewLabelRows(userId, NewLabels(f), old(nextLabelId))
        && userMerchants == old(userMerchants) + [UserMerchantRow(old(nextMerchantId), userId, f.name, f.color, f.pfpLocation)]
        && links == old(links) + Links(old(nextMerchantId), LinkIds(f, old(nextLabelId)))
        && nextLabelId == old(nextLabelId) + |NewLabels(f)|
        && nextMerchantId == old(nextMerchantId) + 1
    {
      if body.None? || !MerchantForm.Accepted(body.value) {
        return ServerError;
      }
      var f := body.value;
      var created := NewLabelRows(userId, NewLabels(f), nextLabelId);
      var defaultLabelIds := CollectLinkIds(f, created, nextLabelId);
      var merchant := UserMerchantRow(nextMerchantId, userId, f.name, f.color, f.pfpLocation);
      if txFails || EmptyValues(Inserts(f)) {
        return ServerError;
      }
      FreshLabelsKeepValid(labels, created, nextLabelId);
      labels := labels + created;
      userMerchants := userMerchants + [merchant];
      links := links + Links(merchant.id, defaultLabelIds);
      nextLabelId := nextLabelId + |created|;
      nextMerchantId := nextMerchantId + 1;
      status := NoContent;
    }
  }

  /** Appending rows numbered from the counter keeps every id below the
      advanced counter. */
  lemma FreshLabelsKeepValid(labels: seq<LabelRow>, created: seq<LabelRow>, next: int)
    requires forall k :: 0 <= k < |labels| ==> labels[k].id < next
    requires forall k :: 0 <= k < |created| ==> created[k].id == next + k
    ensures forall k :: 0 <= k < |labels + created| ==> (labels + created)[k].id < next + |created|
  {
  }

  /** Each new label is linked: the ids pushed after the requested ones are
      exactly the ids of the inserted label rows, in order. */
  lemma CreatedLabelsLinked(f: MerchantForm.CreateMerchant, userId: string, first: int)
    ensures var ids := LinkIds(f, first);
      var created := NewLabelRows(userId, NewLabels(f), first);
      forall k :: 0 <= k < |created| ==> ids[|Requested(f)| + k] == created[k].id
  {
    var ids := LinkIds(f, first);
    assert forall k :: 0 <= k < |NewLabels(f)| ==> ids[|Requested(f)| + k] == ids[|Requested(f)|..][k];
  }

  /** The labels a successful POST creates get ids no earlier label has,
      and so do the merchant and its links' target. */
  lemma NewIdsFresh(old_labels: seq<LabelRow>, nextLabelId: int, userId: string, news: seq<MerchantForm.NewLabel>)
    requires forall k :: 0 <= k < |old_labels| ==> old_labels[k].id < nextLabelId
    ensures var created := NewLabelRows(userId, news, nextLabelId);
      forall i, j :: 0 <= i < |old_labels| && 0 <= j < |created| ==> old_labels[i].id != created[j].id
  {
  }
}
