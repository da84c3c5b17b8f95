/** The catalog's three tables as values, what each statement does to them, and the two contracts of mapping a page. */
module MemoryIndex {
  import opened Prelude
  import opened Scopes

  /** A provider's id: one minted by the gateway's own generator, known by the number it spells, or a foreign string. */
  datatype Native = Minted(tick: nat) | Foreign(name: string)

  /** The unique constraint of memory_index: one row per tenant, provider and native id. */
  datatype Key = Key(tenant: string, provider: string, native: Native)

  /** The hash column is stood in for by the content it is the digest of. */
  datatype IndexRow = IndexRow(
    gatewayId: nat, subject: string, agent: Option<string>, session: Option<string>, hash: string, deleted: bool)

  type Index = map<Key, IndexRow>

  datatype Item = Item(native: Native, content: string)

  datatype CatalogRow = CatalogRow(
    gatewayId: nat, tenant: string, provider: string, native: Native,
    subject: string, agent: Option<string>, session: Option<string>)
  {
    function RowScope(): Scope { Scope(subject, agent, session, map[], None) }
  }

  function ToRow(k: Key, r: IndexRow): CatalogRow {
    CatalogRow(r.gatewayId, k.tenant, k.provider, k.native, r.subject, r.agent, r.session)
  }

  predicate LiveAt(index: Index, k: Key) { k in index && !index[k].deleted }

  predicate GoneAt(index: Index, k: Key) { k in index && index[k].deleted }

  // -- mapping a page ------------------------------------------------------------

  /** What a lookup by native id finds: a live row, or None for a row the gateway deleted. */
  type Known = map<Native, Option<CatalogRow>>

  function Find(index: Index, tenant: string, provider: string, natives: seq<Native>): Known {
    map n | n in natives && Key(tenant, provider, n) in index ::
      var k := Key(tenant, provider, n);
      if index[k].deleted then None else Some(ToRow(k, index[k]))
  }

  function NativeOf(): Item -> Native { (it: Item) => it.native }

  function Natives(items: seq<Item>): seq<Native> { Map(items, NativeOf()) }

  function NotKnown(known: Known): Item -> bool { (it: Item) => it.native !in known }

  function Missing(items: seq<Item>, known: Known): seq<Item> { Filter(items, NotKnown(known)) }

  function NewRow(scope: Scope, content: string, id: nat): IndexRow {
    IndexRow(id, scope.subject, scope.agent, scope.session, content, false)
  }

  /** The rows an insert statement adds, one id per row in order. */
  function InsertRows(tenant: string, provider: string, missing: seq<Item>, scope: Scope, ids: seq<nat>): Index
    requires |missing| <= |ids|
  {
    if missing == [] then map[]
    else
      var n := |missing| - 1;
      InsertRows(tenant, provider, missing[..n], scope, ids)[
        Key(tenant, provider, missing[n].native) := NewRow(scope, missing[n].content, ids[n])]
  }

  /** dict(items): the last content given for a native id. */
  function Contents(items: seq<Item>): map<Native, string> {
    if items == [] then map[] else Contents(items[..|items| - 1])[items[|items| - 1].native :=
                                                                  items[|items| - 1].content]
  }

  /** The tombstoned natives of a page. */
  function Doomed(natives: seq<Native>, known: Known): set<Native> {
    set n | n in natives && n in known && known[n].None?
  }

  function ContentOf(items: seq<Item>, n: Native): string {
    if n in Contents(items) then Contents(items)[n] else ""
  }

  function Revive(index: Index, tenant: string, provider: string, doomed: set<Native>, scope: Scope,
                  items: seq<Item>): Index {
    map k | k in index ::
      if k.tenant == tenant && k.provider == provider && k.native in doomed then
        NewRow(scope, ContentOf(items, k.native), index[k].gatewayId)
      else index[k]
  }

  /** The live rows of a page, in page order. */
  function LiveRows(index: Index, tenant: string, provider: string, items: seq<Item>): seq<CatalogRow> {
    if items == [] then []
    else
      var k := Key(tenant, provider, items[0].native);
      var rest := LiveRows(index, tenant, provider, items[1..]);
      if LiveAt(index, k) then [ToRow(k, index[k])] + rest else rest
  }

  /** What is known, read off in page order. */
  function RowsOf(items: seq<Item>, known: Known): seq<CatalogRow> {
    if items == [] then []
    else
      var rest, n := RowsOf(items[1..], known), items[0].native;
      if n in known && known[n].Some? then [known[n].value] + rest else rest
  }

  /** What is known agrees with the index on every item of the page. */
  ghost predicate KnowsPage(index: Index, tenant: string, provider: string, known: Known, items: seq<Item>) {
    forall it | it in items :: var k := Key(tenant, provider, it.native);
      && (LiveAt(index, k) <==> it.native in known && known[it.native].Some?)
      && (LiveAt(index, k) ==> known[it.native] == Some(ToRow(k, index[k])))
  }

  lemma {:induction false} RowsAgree(index: Index, tenant: string, provider: string, known: Known, items: seq<Item>)
    requires KnowsPage(index, tenant, provider, known, items)
    ensures RowsOf(items, known) == LiveRows(index, tenant, provider, items)
  {
    if items != [] {
      assert items[0] in items && forall it | it in items[1..] :: it in items;
      RowsAgree(index, tenant, provider, known, items[1..]);
    }
  }

  function MissingAt(index: Index, tenant: string, provider: string, items: seq<Item>): seq<Item> {
    Missing(items, Find(index, tenant, provider, Natives(items)))
  }

  /** One committed map transaction with nobody else in the way: the new index and the rows returned. */
  ghost function MapPage(index: Index, tenant: string, provider: string, items: seq<Item>, scope: Scope,
                         revive: bool, ids: seq<nat>): Result<(Index, seq<CatalogRow>), Error>
    requires |MissingAt(index, tenant, provider, items)| <= |ids|
  {
    var known := Find(index, tenant, provider, Natives(items));
    var missing := Missing(items, known);
    if !Distinct(Natives(missing)) then Err(UniqueConflict)
    else
      var added := index + InsertRows(tenant, provider, missing, scope, ids);
      var result := if revive
                    then Revive(added, tenant, provider, Doomed(Natives(items), known), scope, items)
                    else added;
      Ok((result, LiveRows(result, tenant, provider, items)))
  }

  lemma {:induction false} MissingIsShort(items: seq<Item>, known: Known)
    ensures |Missing(items, known)| <= |items|
  {
    if items != [] { MissingIsShort(items[1..], known); }
  }

  lemma MissingMember(items: seq<Item>, known: Known, it: Item)
    ensures it in Missing(items, known) <==> it in items && it.native !in known
  {
    FilterMember(items, NotKnown(known), it);
  }

  /** An insert adds exactly the missing keys, all live, with the given scope and distinct fresh ids. */
  lemma {:induction false} InsertRowsAt(tenant: string, provider: string, missing: seq<Item>, scope: Scope,
                                        ids: seq<nat>)
    requires |missing| <= |ids|
    ensures var rows := InsertRows(tenant, provider, missing, scope, ids);
            && (forall k :: k in rows <==> k.tenant == tenant && k.provider == provider && k.native in Natives(missing))
            && (forall k | k in rows :: exists i :: 0 <= i < |missing| && k.native == missing[i].native
                                                 && rows[k] == NewRow(scope, missing[i].content, ids[i]))
  {
    if missing != [] {
      var n := |missing| - 1;
      InsertRowsAt(tenant, provider, missing[..n], scope, ids);
      assert Natives(missing) == Natives(missing[..n]) + [missing[n].native];
      var before, rows := InsertRows(tenant, provider, missing[..n], scope, ids),
          InsertRows(tenant, provider, missing, scope, ids);
      forall k | k in rows
        ensures exists i :: 0 <= i < |missing| && k.native == missing[i].native
                         && rows[k] == NewRow(scope, missing[i].content, ids[i])
      {
        if k.native == missing[n].native {
          assert rows[k] == NewRow(scope, missing[n].content, ids[n]);
        } else {
          assert k in before;
          var i :| 0 <= i < |missing[..n]| && k.native == missing[..n][i].native
                && before[k] == NewRow(scope, missing[..n][i].content, ids[i]);
          assert missing[..n][i] == missing[i];
        }
      }
    }
  }

  lemma InsertRowsKeys(tenant: string, provider: string, missing: seq<Item>, scope: Scope, ids: seq<nat>)
    requires |missing| <= |ids|
    ensures forall k :: k in InsertRows(tenant, provider, missing, scope, ids)
                   <==> k.tenant == tenant && k.provider == provider && k.native in Natives(missing)
  {
    InsertRowsAt(tenant, provider, missing, scope, ids);
  }

  /** With distinct natives, row i of the insert holds item i and id i. */
  lemma {:induction false} InsertRowAt(tenant: string, provider: string, missing: seq<Item>, scope: Scope,
                                       ids: seq<nat>, i: nat)
    requires i < |missing| <= |ids| && Distinct(Natives(missing))
    ensures var k := Key(tenant, provider, missing[i].native); var rows :=
            InsertRows(tenant, provider, missing, scope, ids);
            k in rows && rows[k] == NewRow(scope, missing[i].content, ids[i])
  {
    var n := |missing| - 1;
    if i < n {
      assert Natives(missing)[i] != Natives(missing)[n];
      forall a, b | 0 <= a < b < n ensures Natives(missing[..n])[a] != Natives(missing[..n])[b] {
        assert Natives(missing)[a] != Natives(missing)[b];
      }
      InsertRowAt(tenant, provider, missing[..n], scope, ids, i);
    }
  }

  // -- what mapping a page does to each key --------------------------------------------

  ghost predicate InPage(k: Key, tenant: string, provider: string, items: seq<Item>) {
    k.tenant == tenant && k.provider == provider && k.native in Natives(items)
  }

  ghost predicate NewlyMapped(after: Index, k: Key, items: seq<Item>, scope: Scope, ids: seq<nat>) {
    k in after && exists i, j :: 0 <= i < |items| && 0 <= j < |ids|
                              && items[i].native == k.native && after[k] == NewRow(scope, items[i].content, ids[j])
  }

  /** The effect of a page on one key, stated without following the statements. */
  ghost predicate Effect(before: Index, after: Index, k: Key, tenant: string, provider: string, items: seq<Item>,
                         scope: Scope, revive: bool, ids: seq<nat>)
  {
    if k in before then
      k in after && after[k] == (if revive && InPage(k, tenant, provider, items) && before[k].deleted
                                 then NewRow(scope, ContentOf(items, k.native), before[k].gatewayId)
                                 else before[k])
    else if InPage(k, tenant, provider, items) then NewlyMapped(after, k, items, scope, ids)
    else k !in after
  }

  lemma NativeNamed(items: seq<Item>, n: Native)
    ensures n in Natives(items) <==> exists it :: it in items && it.native == n
  {
    if n in Natives(items) {
      var i :| 0 <= i < |items| && Natives(items)[i] == n;
      assert items[i] in items;
    }
    if it :| it in items && it.native == n {
      var i :| 0 <= i < |items| && items[i] == it;
      assert Natives(items)[i] == n;
    }
  }

  lemma UnknownNatives(items: seq<Item>, known: Known, n: Native)
    ensures n in Natives(Missing(items, known)) <==> n in Natives(items) && n !in known
  {
    var missing := Missing(items, known);
    NativeNamed(items, n);
    NativeNamed(missing, n);
    hide Natives, Missing;
    forall it: Item
      ensures it in missing <==> it in items && it.native !in known
    {
      MissingMember(items, known, it);
    }
  }

  lemma MissingNatives(index: Index, tenant: string, provider: string, items: seq<Item>, n: Native)
    ensures n in Natives(MissingAt(index, tenant, provider, items))
       <==> n in Natives(items) && Key(tenant, provider, n) !in index
  {
    UnknownNatives(items, Find(index, tenant, provider, Natives(items)), n);
  }

  lemma AddedEffect(index: Index, tenant: string, provider: string, items: seq<Item>, scope: Scope, ids: seq<nat>,
                    k: Key)
    requires |MissingAt(index, tenant, provider, items)| <= |ids|
    ensures var added := index + InsertRows(tenant, provider, MissingAt(index, tenant, provider, items), scope, ids);
            Effect(index, added, k, tenant, provider, items, scope, false, ids)
  {
    var known := Find(index, tenant, provider, Natives(items));
    var missing := MissingAt(index, tenant, provider, items);
    InsertRowsAt(tenant, provider, missing, scope, ids);
    MissingNatives(index, tenant, provider, items, k.native);
    var rows := InsertRows(tenant, provider, missing, scope, ids);
    if k in rows {
      var i :| 0 <= i < |missing| && k.native == missing[i].native
          && rows[k] == NewRow(scope, missing[i].content, ids[i]);
      MissingMember(items, known, missing[i]);
      var m :| 0 <= m < |items| && items[m] == missing[i];
      assert NewlyMapped(index + rows, k, items, scope, ids) by {
        assert items[m].native == k.native && (index + rows)[k] == NewRow(scope, items[m].content, ids[i]);
      }
    }
  }

  lemma MapPageEffect(index: Index, tenant: string, provider: string, items: seq<Item>, scope: Scope,
                      revive: bool, ids: seq<nat>, k: Key)
    requires |MissingAt(index, tenant, provider, items)| <= |ids|
    requires Mappable(index, tenant, provider, items)
    ensures MapPage(index, tenant, provider, items, scope, revive, ids).Ok?
    ensures Effect(index, MapPage(index, tenant, provider, items, scope, revive, ids).value.0, k,
                   tenant, provider, items, scope, revive, ids)
  {
    MapPageFailsIff(index, tenant, provider, items, scope, revive, ids);
    var known := Find(index, tenant, provider, Natives(items));
    AddedEffect(index, tenant, provider, items, scope, ids, k);
    var added := index + InsertRows(tenant, provider, Missing(items, known), scope, ids);
    var after := MapPage(index, tenant, provider, items, scope, revive, ids).value.0;
    assert k in after <==> k in added;
    if k !in index && k in added {
      assert Key(tenant, provider, k.native) == k;
      assert k.native !in Doomed(Natives(items), known);
      assert after[k] == added[k];
    }
  }

  // -- when mapping fails ---------------------------------------------------------------

  ghost predicate RepeatsUnseen(items: seq<Item>, known: Known) {
    exists i, j :: 0 <= i < j < |items| && items[i].native == items[j].native && items[i].native !in known
  }

  /** A native id occurring twice in a page is one the catalog has already seen. */
  predicate Mappable(index: Index, tenant: string, provider: string, items: seq<Item>) {
    forall i, j | 0 <= i < j < |items| && items[i].native == items[j].native ::
      Key(tenant, provider, items[i].native) in index
  }

  /** The page is refused exactly when it repeats a native id the catalog has never seen: the missing list is not
      deduplicated. */
  lemma MapPageFailsIff(index: Index, tenant: string, provider: string, items: seq<Item>, scope: Scope,
                        revive: bool, ids: seq<nat>)
    requires |MissingAt(index, tenant, provider, items)| <= |ids|
    ensures MapPage(index, tenant, provider, items, scope, revive, ids).Ok? <==>
            Mappable(index, tenant, provider, items)
    ensures MapPage(index, tenant, provider, items, scope, revive, ids).Err?
        ==> MapPage(index, tenant, provider, items, scope, revive, ids) == Err(UniqueConflict)
  {
    var known := Find(index, tenant, provider, Natives(items));
    MissingDistinctIff(items, known);
    forall i | 0 <= i < |items|
      ensures items[i].native in known <==> Key(tenant, provider, items[i].native) in index
    {
      assert Natives(items)[i] == items[i].native;
    }
  }

  /** The smallest page the catalog refuses: the same new native id twice, on an empty index. */
  lemma TwiceIsRefused(scope: Scope, revive: bool)
    ensures var item := Item(Foreign("x"), "tea");
            && |MissingAt(map[], "t", "p", [item, item])| == 2
            && MapPage(map[], "t", "p", [item, item], scope, revive, [0, 1]) == Err(UniqueConflict)
  {
    var item := Item(Foreign("x"), "tea");
    var page := [item, item];
    assert Find(map[], "t", "p", Natives(page)) == map[];
    FilterAll(page, NotKnown(map[]));
    assert page[0].native == page[1].native;
    MapPageFailsIff(map[], "t", "p", page, scope, revive, [0, 1]);
  }

  lemma DistinctCons<T>(x: T, s: seq<T>)
    ensures Distinct([x] + s) <==> x !in s && Distinct(s)
  {
    var t := [x] + s;
    assert forall i | 0 <= i < |s| :: s[i] == t[i + 1];
    if Distinct(t) {
      forall i | 0 <= i < |s| ensures x != s[i] { assert t[0] != t[i + 1]; }
      forall i, j | 0 <= i < j < |s| ensures s[i] != s[j] { assert t[i + 1] != t[j + 1]; }
    }
  }

  lemma RepeatsCons(x: Item, rest: seq<Item>, known: Known)
    ensures RepeatsUnseen([x] + rest, known)
       <==> (x.native !in known && x.native in Natives(rest)) || RepeatsUnseen(rest, known)
  {
    var items := [x] + rest;
    if i, j :| 0 <= i < j < |items| && items[i].native == items[j].native && items[i].native !in known {
      if i == 0 {
        assert Natives(rest)[j - 1] == x.native;
      } else {
        assert rest[i - 1] == items[i] && rest[j - 1] == items[j];
      }
    }
    if x.native !in known && x.native in Natives(rest) {
      var j :| 0 <= j < |rest| && Natives(rest)[j] == x.native;
      assert items[0] == x && items[j + 1] == rest[j];
    }
    if i, j :| 0 <= i < j < |rest| && rest[i].native == rest[j].native && rest[i].native !in known {
      assert items[i + 1] == rest[i] && items[j + 1] == rest[j];
    }
  }

  /** Dropping the known items keeps every repetition among the unknown ones. */
  lemma {:induction false} MissingDistinctIff(items: seq<Item>, known: Known)
    ensures Distinct(Natives(Missing(items, known))) <==> !RepeatsUnseen(items, known)
  {
    if items != [] {
      var x, rest := items[0], items[1..];
      assert items == [x] + rest;
      MissingDistinctIff(rest, known);
      RepeatsCons(x, rest, known);
      if x.native !in known {
        UnknownNatives(rest, known, x.native);
        assert Natives(Missing(items, known)) == [x.native] + Natives(Missing(rest, known));
        DistinctCons(x.native, Natives(Missing(rest, known)));
      }
    }
  }

  // -- identity -------------------------------------------------------------------------

  /** gateway_id is the primary key. */
  ghost predicate IdsUnique(index: Index) {
    forall k, l | k in index && l in index && index[k].gatewayId == index[l].gatewayId :: k == l
  }

  ghost predicate IdsBelow(index: Index, bound: nat) {
    forall k | k in index :: index[k].gatewayId < bound
  }

  /** Ids handed out now are above every id handed out before, and below `next`. */
  ghost predicate FreshIds(ids: seq<nat>, bound: nat, next: nat) {
    Increasing(ids) && bound <= next && forall id | id in ids :: bound <= id < next
  }

  lemma FreshSnoc(ids: seq<nat>, tick: nat, bound: nat, before: nat, next: nat)
    requires FreshIds(ids, bound, before) && before <= tick < next
    ensures FreshIds(ids + [tick], bound, next)
  {
    var all := ids + [tick];
    forall i, j | 0 <= i < j < |all|
      ensures all[i] < all[j]
    {
      assert all[i] in ids;
    }
  }

  /** SELECT by gateway id, tenant and liveness. */
  predicate Owns(index: Index, k: Key, tenant: string, id: nat) {
    LiveAt(index, k) && k.tenant == tenant && index[k].gatewayId == id
  }

  ghost function Resolve(index: Index, tenant: string, id: nat): Option<Key> {
    if exists k :: Owns(index, k, tenant, id) then var k :| Owns(index, k, tenant, id); Some(k) else None
  }

  /** An id once issued names the same triple for ever: the index only grows and no statement changes an id. */
  ghost predicate IdentityKept(before: Index, after: Index) {
    forall k | k in before :: k in after && after[k].gatewayId == before[k].gatewayId
  }

  lemma InsertRowsFresh(tenant: string, provider: string, missing: seq<Item>, scope: Scope, ids: seq<nat>, bound: nat,
                        next: nat)
    requires |missing| <= |ids| && FreshIds(ids, bound, next)
    ensures var rows := InsertRows(tenant, provider, missing, scope, ids);
            IdsUnique(rows) && forall k | k in rows :: bound <= rows[k].gatewayId < next && !rows[k].deleted
  {
    var rows := InsertRows(tenant, provider, missing, scope, ids);
    InsertRowsAt(tenant, provider, missing, scope, ids);
    forall k | k in rows
      ensures bound <= rows[k].gatewayId < next && !rows[k].deleted
    {
      var i :| 0 <= i < |missing| && k.native == missing[i].native
          && rows[k] == NewRow(scope, missing[i].content, ids[i]);
      assert ids[i] in ids;
    }
    forall k, l | k in rows && l in rows && rows[k].gatewayId == rows[l].gatewayId
      ensures k == l
    {
      var i :| 0 <= i < |missing| && k.native == missing[i].native
          && rows[k] == NewRow(scope, missing[i].content, ids[i]);
      var j :| 0 <= j < |missing| && l.native == missing[j].native
          && rows[l] == NewRow(scope, missing[j].content, ids[j]);
      assert i == j by { assert Increasing(ids) && ids[i] == ids[j]; }
    }
  }

  /** Inserting rows for unseen keys under fresh ids. */
  lemma InsertKeepsIdentity(index: Index, tenant: string, provider: string, missing: seq<Item>, scope: Scope,
                            ids: seq<nat>, bound: nat, next: nat)
    requires |missing| <= |ids| && FreshIds(ids, bound, next) && IdsUnique(index) && IdsBelow(index, bound)
    requires forall n | n in Natives(missing) :: Key(tenant, provider, n) !in index
    ensures var added := index + InsertRows(tenant, provider, missing, scope, ids);
            IdentityKept(index, added) && IdsUnique(added) && IdsBelow(added, next)
  {
    InsertRowsKeys(tenant, provider, missing, scope, ids);
    InsertRowsFresh(tenant, provider, missing, scope, ids, bound, next);
    hide InsertRows, Natives;
    var rows := InsertRows(tenant, provider, missing, scope, ids);
    assert forall k | k in rows :: k == Key(tenant, provider, k.native) && k !in index;
  }

  lemma ReviveKeepsIdentity(index: Index, tenant: string, provider: string, doomed: set<Native>, scope: Scope,
                            items: seq<Item>, bound: nat)
    requires IdsUnique(index) && IdsBelow(index, bound)
    ensures var after := Revive(index, tenant, provider, doomed, scope, items);
            IdentityKept(index, after) && after.Keys == index.Keys && IdsUnique(after) && IdsBelow(after, bound)
  {
    var after := Revive(index, tenant, provider, doomed, scope, items);
    assert forall k | k in index :: after[k].gatewayId == index[k].gatewayId;
  }

  lemma MapPageKeepsIdentity(index: Index, tenant: string, provider: string, items: seq<Item>, scope: Scope,
                             revive: bool, ids: seq<nat>, bound: nat, next: nat)
    requires |MissingAt(index, tenant, provider, items)| <= |ids| && FreshIds(ids, bound, next) && IdsUnique(index)
             && IdsBelow(index, bound)
    requires Mappable(index, tenant, provider, items)
    ensures MapPage(index, tenant, provider, items, scope, revive, ids).Ok?
    ensures var after := MapPage(index, tenant, provider, items, scope, revive, ids).value.0;
            IdentityKept(index, after) && IdsUnique(after) && IdsBelow(after, next)
  {
    MapPageFailsIff(index, tenant, provider, items, scope, revive, ids);
    var known := Find(index, tenant, provider, Natives(items));
    var missing := Missing(items, known);
    forall n | n in Natives(missing)
      ensures Key(tenant, provider, n) !in index
    {
      MissingNatives(index, tenant, provider, items, n);
    }
    InsertKeepsIdentity(index, tenant, provider, missing, scope, ids, bound, next);
    var added := index + InsertRows(tenant, provider, missing, scope, ids);
    ReviveKeepsIdentity(added, tenant, provider, Doomed(Natives(items), known), scope, items, next);
  }

  // -- the two contracts -------------------------------------------------------------------

  predicate LivePage(index: Index, tenant: string, provider: string, items: seq<Item>) {
    forall i | 0 <= i < |items| :: LiveAt(index, Key(tenant, provider, items[i].native))
  }

  /** When every item of a page is live, the page maps one to one and in order. */
  lemma {:induction false} LiveRowsOfLivePage(index: Index, tenant: string, provider: string, items: seq<Item>)
    requires LivePage(index, tenant, provider, items)
    ensures |LiveRows(index, tenant, provider, items)| == |items|
    ensures forall i :: 0 <= i < |items| ==> var k := Key(tenant, provider, items[i].native);
              LiveRows(index, tenant, provider, items)[i] == ToRow(k, index[k])
  {
    if items != [] {
      assert LiveAt(index, Key(tenant, provider, items[0].native));
      assert forall i | 0 <= i < |items[1..]| :: items[1..][i] == items[i + 1];
      LiveRowsOfLivePage(index, tenant, provider, items[1..]);
    }
  }

  function LiveItem(index: Index, tenant: string, provider: string): Item -> bool {
    (it: Item) => LiveAt(index, Key(tenant, provider, it.native))
  }

  /** In general the rows returned are those of the live items, in order. */
  lemma {:induction false} LiveRowsFilter(index: Index, tenant: string, provider: string, items: seq<Item>)
    ensures LiveRows(index, tenant, provider, items)
         == LiveRows(index, tenant, provider, Filter(items, LiveItem(index, tenant, provider)))
    ensures LivePage(index, tenant, provider, Filter(items, LiveItem(index, tenant, provider)))
  {
    if items != [] {
      LiveRowsFilter(index, tenant, provider, items[1..]);
      var rest := Filter(items[1..], LiveItem(index, tenant, provider));
      if LiveAt(index, Key(tenant, provider, items[0].native)) {
        assert ([items[0]] + rest)[1..] == rest;
      }
    }
  }

  /** The last thing a page says of a native id. */
  ghost predicate LastGiven(items: seq<Item>, n: Native, content: string) {
    exists i :: 0 <= i < |items| && items[i] == Item(n, content) && forall j | i < j < |items| :: items[j].native != n
  }

  lemma {:induction false} ContentsAreLast(items: seq<Item>, n: Native)
    ensures n in Contents(items) <==> n in Natives(items)
    ensures n in Contents(items) ==> LastGiven(items, n, Contents(items)[n])
  {
    if items != [] {
      var m := |items| - 1;
      var head := items[..m];
      ContentsAreLast(head, n);
      assert Natives(items) == Natives(head) + [items[m].native];
      if items[m].native == n {
        assert items[m] == Item(n, Contents(items)[n]);
      } else if n in Contents(items) {
        var i :| 0 <= i < m && head[i] == Item(n, Contents(head)[n]) && forall j | i < j < m :: head[j].native != n;
        assert items[i] == head[i] && forall j | i < j < m :: items[j] == head[j];
      }
    }
  }

  lemma MapPageEffects(index: Index, tenant: string, provider: string, items: seq<Item>, scope: Scope,
                       revive: bool, ids: seq<nat>)
    requires |MissingAt(index, tenant, provider, items)| <= |ids|
    requires Mappable(index, tenant, provider, items)
    ensures MapPage(index, tenant, provider, items, scope, revive, ids).Ok?
    ensures forall k :: Effect(index, MapPage(index, tenant, provider, items, scope, revive, ids).value.0, k,
                               tenant, provider, items, scope, revive, ids)
  {
    MapPageFailsIff(index, tenant, provider, items, scope, revive, ids);
    forall k
      ensures Effect(index, MapPage(index, tenant, provider, items, scope, revive, ids).value.0, k,
                     tenant, provider, items, scope, revive, ids)
    {
      MapPageEffect(index, tenant, provider, items, scope, revive, ids, k);
    }
  }

  lemma ItemInPage(tenant: string, provider: string, items: seq<Item>, it: Item)
    requires it in items
    ensures InPage(Key(tenant, provider, it.native), tenant, provider, items)
  {
    var i :| 0 <= i < |items| && items[i] == it;
    assert Natives(items)[i] == it.native;
  }

  /** A new live row under the write's scope, with one of the ids given and the content of one of the page's items of
      that native id. */
  ghost predicate IsInserted(r: IndexRow, n: Native, items: seq<Item>, scope: Scope, ids: seq<nat>) {
    && !r.deleted && r.subject == scope.subject && r.agent == scope.agent && r.session == scope.session
    && r.gatewayId in ids && Item(n, r.hash) in items
  }

  /** Write path: one live row per item in page order; tombstones are revived under their old id with the write's scope
      and the last content given; new rows are the page's; rows already live, and rows outside the page, are
      untouched. */
  lemma RecordManyContract(index: Index, tenant: string, provider: string, items: seq<Item>, scope: Scope,
                           ids: seq<nat>)
    requires |MissingAt(index, tenant, provider, items)| <= |ids|
    requires Mappable(index, tenant, provider, items)
    ensures MapPage(index, tenant, provider, items, scope, true, ids).Ok?
    ensures var (after, rows) := MapPage(index, tenant, provider, items, scope, true, ids).value;
            && |rows| == |items|
            && LivePage(after, tenant, provider, items)
            && (forall i :: 0 <= i < |items| ==>
                var k := Key(tenant, provider, items[i].native); rows[i] == ToRow(k, after[k]))
            && (forall k | LiveAt(index, k) :: k in after && after[k] == index[k])
            && (forall k | k in index && !InPage(k, tenant, provider, items) :: k in after && after[k] == index[k])
            && (forall k | GoneAt(index, k) && InPage(k, tenant, provider, items) ::
                  LiveAt(after, k) && after[k].gatewayId == index[k].gatewayId
                  && after[k].subject == scope.subject && after[k].agent == scope.agent
                  && after[k].session == scope.session && LastGiven(items, k.native, after[k].hash))
            && (forall k | k in after && k !in index ::
                  InPage(k, tenant, provider, items) && IsInserted(after[k], k.native, items, scope, ids))
  {
    MapPageFailsIff(index, tenant, provider, items, scope, true, ids);
    var (after, rows) := MapPage(index, tenant, provider, items, scope, true, ids).value;
    MapPageEffects(index, tenant, provider, items, scope, true, ids);
    forall k | k in index && !(InPage(k, tenant, provider, items) && index[k].deleted)
      ensures k in after && after[k] == index[k]
    {
      assert Effect(index, after, k, tenant, provider, items, scope, true, ids);
    }
    forall k | k in after && k !in index
      ensures InPage(k, tenant, provider, items) && IsInserted(after[k], k.native, items, scope, ids)
    {
      assert Effect(index, after, k, tenant, provider, items, scope, true, ids);
    }
    forall k | GoneAt(index, k) && InPage(k, tenant, provider, items)
      ensures k in after && after[k] == NewRow(scope, ContentOf(items, k.native), index[k].gatewayId)
      ensures LastGiven(items, k.native, after[k].hash)
    {
      ContentsAreLast(items, k.native);
      assert Effect(index, after, k, tenant, provider, items, scope, true, ids);
    }
    forall i | 0 <= i < |items|
      ensures LiveAt(after, Key(tenant, provider, items[i].native))
    {
      ItemInPage(tenant, provider, items, items[i]);
      assert Effect(index, after, Key(tenant, provider, items[i].native), tenant, provider, items, scope, true, ids);
    }
    LiveRowsOfLivePage(after, tenant, provider, items);
  }

  /** A page that is already live maps to the same rows again, whatever the scope, and changes nothing. */
  lemma MapLivePageIsIdentity(index: Index, tenant: string, provider: string, items: seq<Item>, scope: Scope,
                              revive: bool, ids: seq<nat>)
    requires LivePage(index, tenant, provider, items)
    ensures MissingAt(index, tenant, provider, items) == []
    ensures MapPage(index, tenant, provider, items, scope, revive, ids)
         == Ok((index, LiveRows(index, tenant, provider, items)))
  {
    var known := Find(index, tenant, provider, Natives(items));
    forall it | it in items
      ensures it.native in known && known[it.native].Some?
    {
      ItemInPage(tenant, provider, items, it);
      var i :| 0 <= i < |items| && items[i] == it;
      assert LiveAt(index, Key(tenant, provider, items[i].native));
    }
    FilterNone(items, NotKnown(known));
    assert Doomed(Natives(items), known) == {} by {
      forall n | n in Natives(items) && n in known
        ensures known[n].Some?
      {
        var i :| 0 <= i < |items| && Natives(items)[i] == n;
        assert items[i] in items;
      }
    }
    ReviveNothing(index, tenant, provider, scope, items);
    assert index + map[] == index;
  }

  lemma ReviveNothing(index: Index, tenant: string, provider: string, scope: Scope, items: seq<Item>)
    ensures Revive(index, tenant, provider, {}, scope, items) == index
  {}

  /** Writing the same page twice returns the same ids. */
  lemma RecordManyIdempotent(index: Index, tenant: string, provider: string, items: seq<Item>, scope: Scope,
                             ids: seq<nat>, scope2: Scope, ids2: seq<nat>)
    requires |MissingAt(index, tenant, provider, items)| <= |ids|
    requires Mappable(index, tenant, provider, items)
    ensures var first := MapPage(index, tenant, provider, items, scope, true, ids);
            first.Ok? && |MissingAt(first.value.0, tenant, provider, items)| == 0
            && MapPage(first.value.0, tenant, provider, items, scope2, true, ids2) == first
  {
    RecordManyContract(index, tenant, provider, items, scope, ids);
    MapPageRows(index, tenant, provider, items, scope, true, ids);
    hide MapPage, MissingAt, Mappable, LivePage, LiveRows, InPage;
    var after := MapPage(index, tenant, provider, items, scope, true, ids).value.0;
    MapLivePageIsIdentity(after, tenant, provider, items, scope2, true, ids2);
  }

  /** The rows returned are read off the resulting index. */
  lemma MapPageRows(index: Index, tenant: string, provider: string, items: seq<Item>, scope: Scope, revive: bool,
                    ids: seq<nat>)
    requires |MissingAt(index, tenant, provider, items)| <= |ids|
    ensures var r := MapPage(index, tenant, provider, items, scope, revive, ids);
            r.Ok? ==> r.value.1 == LiveRows(r.value.0, tenant, provider, items)
  {}

  function NotGone(index: Index, tenant: string, provider: string): Item -> bool {
    (it: Item) => !GoneAt(index, Key(tenant, provider, it.native))
  }

  lemma EnsureIndex(index: Index, tenant: string, provider: string, items: seq<Item>, scope: Scope, ids: seq<nat>)
    requires |MissingAt(index, tenant, provider, items)| <= |ids|
    requires Mappable(index, tenant, provider, items)
    ensures MapPage(index, tenant, provider, items, scope, false, ids).Ok?
    ensures var after := MapPage(index, tenant, provider, items, scope, false, ids).value.0;
            && (forall k :: Effect(index, after, k, tenant, provider, items, scope, false, ids))
            && (forall k | k in index :: k in after && after[k] == index[k])
            && (forall k | k in after && k !in index ::
                InPage(k, tenant, provider, items) && NewlyMapped(after, k, items, scope, ids))
  {
    MapPageEffects(index, tenant, provider, items, scope, false, ids);
    hide MapPage, NewlyMapped, InPage, MissingAt, Mappable;
    var after := MapPage(index, tenant, provider, items, scope, false, ids).value.0;
    forall k
      ensures k in index ==> k in after && after[k] == index[k]
      ensures k in after && k !in index ==>
              InPage(k, tenant, provider, items) && NewlyMapped(after, k, items, scope, ids)
    {
      assert Effect(index, after, k, tenant, provider, items, scope, false, ids);
    }
  }

  /** Read path: the rows are exactly the items not tombstoned, in page order; every existing row is untouched; unseen
      natives are added live with the query's scope; and everything returned resolves afterwards. */
  lemma EnsureManyContract(index: Index, tenant: string, provider: string, items: seq<Item>, scope: Scope,
                           ids: seq<nat>, bound: nat, next: nat)
    requires |MissingAt(index, tenant, provider, items)| <= |ids| && FreshIds(ids, bound, next) && IdsUnique(index)
             && IdsBelow(index, bound)
    requires Mappable(index, tenant, provider, items)
    ensures MapPage(index, tenant, provider, items, scope, false, ids).Ok?
    ensures var (after, rows) := MapPage(index, tenant, provider, items, scope, false, ids).value;
            var kept := Filter(items, NotGone(index, tenant, provider));
            && (forall k | k in index :: k in after && after[k] == index[k])
            && (forall k | k in after && k !in index ::
                InPage(k, tenant, provider, items) && NewlyMapped(after, k, items, scope, ids))
            && |rows| == |kept|
            && (forall i :: 0 <= i < |rows| ==> var k := Key(tenant, provider, kept[i].native);
                  && LiveAt(after, k) && rows[i] == ToRow(k, after[k])
                  && Resolve(after, tenant, rows[i].gatewayId) == Some(k))
  {
    EnsureIndex(index, tenant, provider, items, scope, ids);
    MapPageRows(index, tenant, provider, items, scope, false, ids);
    MapPageKeepsIdentity(index, tenant, provider, items, scope, false, ids, bound, next);
    hide MapPage, NewlyMapped, InPage, Effect, LiveRows, Mappable, MissingAt, NotGone, Resolve, FreshIds;
    var (after, rows) := MapPage(index, tenant, provider, items, scope, false, ids).value;
    var kept := Filter(items, NotGone(index, tenant, provider));
    EnsureKeepsNotGone(index, after, tenant, provider, items, scope, ids);
    LiveRowsOfLivePage(after, tenant, provider, kept);
    forall i | 0 <= i < |rows|
      ensures var k := Key(tenant, provider, kept[i].native);
              LiveAt(after, k) && rows[i] == ToRow(k, after[k]) && Resolve(after, tenant, rows[i].gatewayId) == Some(k)
    {
      ResolveOwned(after, tenant, rows[i].gatewayId, Key(tenant, provider, kept[i].native));
    }
  }

  lemma ResolveOwned(index: Index, tenant: string, id: nat, k: Key)
    requires IdsUnique(index) && Owns(index, k, tenant, id)
    ensures Resolve(index, tenant, id) == Some(k)
  {}

  lemma EnsureKeepsNotGone(index: Index, after: Index, tenant: string, provider: string, items: seq<Item>,
                           scope: Scope, ids: seq<nat>)
    requires forall k :: Effect(index, after, k, tenant, provider, items, scope, false, ids)
    ensures LiveRows(after, tenant, provider, items)
         == LiveRows(after, tenant, provider, Filter(items, NotGone(index, tenant, provider)))
    ensures LivePage(after, tenant, provider, Filter(items, NotGone(index, tenant, provider)))
  {
    forall it | it in items
      ensures LiveItem(after, tenant, provider)(it) == NotGone(index, tenant, provider)(it)
    {
      ItemInPage(tenant, provider, items, it);
      assert Effect(index, after, Key(tenant, provider, it.native), tenant, provider, items, scope, false, ids);
    }
    FilterSame(items, LiveItem(after, tenant, provider), NotGone(index, tenant, provider));
    LiveRowsFilter(after, tenant, provider, items);
  }

  // -- soft deletes ---------------------------------------------------------------------------

  function MarkDeleted(index: Index, tenant: string, id: nat): Index {
    map k | k in index :: if Owns(index, k, tenant, id) then index[k].(deleted := true) else index[k]
  }

  /** The WHERE clause of a scope tombstone; labels are not among its conditions. */
  predicate InIndexScope(k: Key, r: IndexRow, tenant: string, scope: Scope, provider: string) {
    && k.tenant == tenant && k.provider == provider && r.subject == scope.subject && !r.deleted
    && (Truthy(scope.agent) ==> r.agent == scope.agent)
    && (Truthy(scope.session) ==> r.session == scope.session)
  }

  function MarkScopeDeleted(index: Index, tenant: string, scope: Scope, provider: string): Index {
    map k | k in index ::
      if InIndexScope(k, index[k], tenant, scope, provider) then index[k].(deleted := true) else index[k]
  }

  function RowDims(k: Key, r: IndexRow): Scope { Scope(r.subject, r.agent, r.session, map[], Some(k.tenant)) }

  /** On the dimensions the index holds, the tombstone's conditions are the covering relation. */
  lemma IndexScopeCovers(k: Key, r: IndexRow, tenant: string, scope: Scope, provider: string)
    requires tenant != ""
    ensures InIndexScope(k, r, tenant, scope, provider)
       <==> k.provider == provider && !r.deleted && CoversDims(scope.Under(tenant), RowDims(k, r))
  {
    var f, row := scope.Under(tenant), RowDims(k, r);
    assert f.Dims().Keys <= {Tenant, Subject, Agent, Session} && Tenant in f.Dims() && Subject in f.Dims();
    if CoversDims(f, row) {
      assert row.Column(Tenant) == Some(f.Dims()[Tenant]) && row.Column(Subject) == Some(f.Dims()[Subject]);
      assert Agent in f.Dims() ==> row.Column(Agent) == Some(f.Dims()[Agent]);
      assert Session in f.Dims() ==> row.Column(Session) == Some(f.Dims()[Session]);
    }
  }

  lemma TombstonesKeepIdentity(index: Index, tenant: string, id: nat, scope: Scope, provider: string, bound: nat)
    requires IdsUnique(index) && IdsBelow(index, bound)
    ensures var one := MarkDeleted(index, tenant, id);
            IdentityKept(index, one) && one.Keys == index.Keys && IdsUnique(one) && IdsBelow(one, bound)
    ensures var many := MarkScopeDeleted(index, tenant, scope, provider);
            IdentityKept(index, many) && many.Keys == index.Keys && IdsUnique(many) && IdsBelow(many, bound)
  {
    var one, many := MarkDeleted(index, tenant, id), MarkScopeDeleted(index, tenant, scope, provider);
    assert forall k | k in index :: one[k].gatewayId == index[k].gatewayId && many[k].gatewayId == index[k].gatewayId;
  }

  /** The live rows of a subject at a provider. */
  function LiveKeys(index: Index, tenant: string, subject: string, provider: string): set<Key> {
    set k | k in index && k.tenant == tenant && index[k].subject == subject && k.provider == provider
        && !index[k].deleted
  }

  // -- bindings and the journal -------------------------------------------------------------------

  datatype Binding = Binding(provider: string, migratedFrom: Option<string>)

  type Bindings = map<(string, string), Binding>

  function GetBinding(b: Bindings, tenant: string, subject: string): Option<string> {
    if (tenant, subject) in b then Some(b[(tenant, subject)].provider) else None
  }

  /** Bind on first write; an existing binding is never moved. */
  function Bind(b: Bindings, tenant: string, subject: string, provider: string): Bindings {
    if (tenant, subject) in b then b else b[(tenant, subject) := Binding(provider, None)]
  }

  function Rebind(b: Bindings, tenant: string, subject: string, provider: string): Bindings {
    b[(tenant, subject) := Binding(provider, GetBinding(b, tenant, subject))]
  }

  datatype RebindResult = RebindResult(provider: string, orphanedAt: Option<string>, orphanedCount: nat)

  function RebindReport(index: Index, b: Bindings, tenant: string, subject: string, provider: string): RebindResult {
    var previous := GetBinding(b, tenant, subject);
    RebindResult(provider,
                 if previous == Some(provider) then None else previous,
                 if previous.Some? && previous.value != provider
                     then |LiveKeys(index, tenant, subject, previous.value)| else 0)
  }

  datatype JournalRow = JournalRow(
    episode: nat, tenant: string, subject: string, agent: Option<string>, session: Option<string>,
    payload: string, provider: string, natives: seq<Native>)

  function EpisodeDims(j: JournalRow): Scope { Scope(j.subject, j.agent, j.session, map[], Some(j.tenant)) }

  /** The WHERE clause of the journal erasure. */
  predicate InJournalScope(j: JournalRow, tenant: string, scope: Scope) {
    && j.tenant == tenant && j.subject == scope.subject
    && (Truthy(scope.agent) ==> j.agent == scope.agent)
    && (Truthy(scope.session) ==> j.session == scope.session)
  }

  lemma JournalScopeCovers(j: JournalRow, tenant: string, scope: Scope)
    requires tenant != ""
    ensures InJournalScope(j, tenant, scope) <==> CoversDims(scope.Under(tenant), EpisodeDims(j))
  {
    var k, r := Key(j.tenant, "", Minted(0)), IndexRow(0, j.subject, j.agent, j.session, "", false);
    IndexScopeCovers(k, r, tenant, scope, "");
  }

  function OutsideScope(tenant: string, scope: Scope): JournalRow -> bool {
    (j: JournalRow) => !InJournalScope(j, tenant, scope)
  }

  function OfSubject(tenant: string, subject: string): JournalRow -> bool {
    (j: JournalRow) => j.tenant == tenant && j.subject == subject
  }

  function EpisodeOrder(): (JournalRow, JournalRow) -> bool {
    (a: JournalRow, b: JournalRow) => a.episode <= b.episode
  }

  /** SELECT by tenant and subject, ORDER BY episode_id. */
  function JournalRows(journal: seq<JournalRow>, tenant: string, subject: string): seq<JournalRow> {
    Sort(Filter(journal, OfSubject(tenant, subject)), EpisodeOrder())
  }

  lemma JournalRowsAre(journal: seq<JournalRow>, tenant: string, subject: string)
    ensures forall j :: j in JournalRows(journal, tenant, subject)
                   <==> j in journal && j.tenant == tenant && j.subject == subject
  {
    var found := Filter(journal, OfSubject(tenant, subject));
    SortPermutes(found, EpisodeOrder());
    forall j
      ensures j in JournalRows(journal, tenant, subject) <==> j in journal && j.tenant == tenant && j.subject == subject
    {
      FilterMember(journal, OfSubject(tenant, subject), j);
      assert j in multiset(JournalRows(journal, tenant, subject)) <==> j in multiset(found);
    }
  }
}
