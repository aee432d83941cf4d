/**
 * Roles and their parent links (core/models/role.py). Saving a role walks
 * up the chain of ancestors from its new parent and refuses the save when
 * the chain reaches the role itself, so the stored parent links never form
 * a cycle.
 */
module Roles {
  import opened Common

  type RoleId = nat

  const OWNER_ROLE_NAME := "Owner"
  const DESCENDANT_AS_PARENT := "You cannot set a descendant as parent"

  /**
   * A role: `id` is absent before the first save; `ownerName` is the name of
   * the owning client, if any.
   */
  datatype Role = Role(
    id: Option<RoleId>,
    name: string,
    isDefault: bool,
    isPublic: bool,
    parent: Option<RoleId>,
    ownerName: Option<string>)

  // ---------------------------------------------------------------------
  // Parent chains
  // ---------------------------------------------------------------------

  /** The chain of parents starting at `p` ends within `n` steps. */
  ghost predicate Ends(rows: map<RoleId, Role>, p: Option<RoleId>, n: nat)
    decreases n
  {
    p.None? || (n > 0 && p.value in rows && Ends(rows, rows[p.value].parent, n - 1))
  }

  /** Every stored role has a finite chain of ancestors. */
  ghost predicate Acyclic(rows: map<RoleId, Role>) {
    forall k :: k in rows ==> exists n :: Ends(rows, Some(k), n)
  }

  /** `target` is among the first `n` roles of the chain starting at `p`. */
  ghost predicate OnChain(rows: map<RoleId, Role>, p: Option<RoleId>, target: RoleId, n: nat)
    decreases n
  {
    n > 0 && p.Some? && (p.value == target || (p.value in rows && OnChain(rows, rows[p.value].parent, target, n - 1)))
  }

  /** `target` is `p` or one of its ancestors. */
  ghost predicate Descends(rows: map<RoleId, Role>, p: Option<RoleId>, target: RoleId) {
    exists n :: OnChain(rows, p, target, n)
  }

  /** A role is on its own chain; nothing is on the empty chain. */
  lemma DescendsSelf(rows: map<RoleId, Role>, p: Option<RoleId>)
    ensures p.Some? ==> Descends(rows, p, p.value)
    ensures forall t :: !Descends(rows, None, t)
  {
    if p.Some? {
      assert OnChain(rows, p, p.value, 1);
    }
  }

  /** Stepping from a role other than `target` to its parent neither gains nor loses `target`. */
  lemma DescendsStep(rows: map<RoleId, Role>, p: RoleId, target: RoleId)
    requires p in rows && p != target
    ensures Descends(rows, Some(p), target) <==> Descends(rows, rows[p].parent, target)
  {
    if Descends(rows, Some(p), target) {
      var n: nat :| OnChain(rows, Some(p), target, n);
      assert OnChain(rows, rows[p].parent, target, n - 1);
    }
    if Descends(rows, rows[p].parent, target) {
      var n: nat :| OnChain(rows, rows[p].parent, target, n);
      assert OnChain(rows, Some(p), target, n + 1);
    }
  }

  lemma {:induction false} EndsMonotonic(rows: map<RoleId, Role>, p: Option<RoleId>, n: nat, m: nat)
    requires Ends(rows, p, n) && n <= m
    ensures Ends(rows, p, m)
    decreases n
  {
    if p.Some? {
      EndsMonotonic(rows, rows[p.value].parent, n - 1, m - 1);
    }
  }

  /** A chain that never meets `key` is the same chain once `key` is rewritten. */
  lemma {:induction false} EndsAvoiding(rows: map<RoleId, Role>, key: RoleId, role: Role, p: Option<RoleId>, n: nat)
    requires Ends(rows, p, n) && !Descends(rows, p, key)
    ensures Ends(rows[key := role], p, n)
    decreases n
  {
    if p.Some? {
      DescendsSelf(rows, p);
      var q := rows[p.value].parent;
      DescendsStep(rows, p.value, key);
      EndsAvoiding(rows, key, role, q, n - 1);
    }
  }

  /** Every chain of the old table still ends once `key` is rewritten to a role whose own chain ends. */
  lemma {:induction false} EndsAfterRewrite(rows: map<RoleId, Role>, key: RoleId, role: Role, p: Option<RoleId>,
                                            n: nat, n0: nat)
    requires Ends(rows, p, n)
    requires Ends(rows[key := role], Some(key), n0)
    ensures Ends(rows[key := role], p, n + n0)
    decreases n
  {
    var rows' := rows[key := role];
    if p.Some? {
      if p.value == key {
        EndsMonotonic(rows', p, n0, n + n0);
      } else {
        EndsAfterRewrite(rows, key, role, rows[p.value].parent, n - 1, n0);
      }
    }
  }

  /**
   * Rewriting `key` with a parent whose chain does not reach `key` keeps the
   * table free of cycles.
   */
  lemma RewriteKeepsAcyclic(rows: map<RoleId, Role>, key: RoleId, role: Role)
    requires Acyclic(rows)
    requires role.parent.Some? ==> role.parent.value in rows
    requires !Descends(rows, role.parent, key)
    ensures Acyclic(rows[key := role])
  {
    var rows' := rows[key := role];
    var n0: nat := 0;
    if role.parent.Some? {
      n0 :| Ends(rows, role.parent, n0);
    }
    EndsAvoiding(rows, key, role, role.parent, n0);
    assert Ends(rows', Some(key), n0 + 1);
    forall k | k in rows' ensures exists n :: Ends(rows', Some(k), n) {
      if k != key {
        var n :| Ends(rows, Some(k), n);
        EndsAfterRewrite(rows, key, role, Some(k), n, n0 + 1);
      }
    }
  }

  // ---------------------------------------------------------------------
  // The role table
  // ---------------------------------------------------------------------

  /** Keys match the stored ids and stay below `nextId`; parents are stored; no cycles. */
  ghost predicate TableValid(rows: map<RoleId, Role>, nextId: RoleId) {
    && (forall k :: k in rows ==> rows[k].id == Some(k) && k < nextId)
    && (forall k :: k in rows && rows[k].parent.Some? ==> rows[k].parent.value in rows)
    && Acyclic(rows)
  }

  /**
   * The walk of `Role.save` up the chain of parents: whether it meets the
   * role `id` before the chain runs out.
   */
  method ChainReaches(rows: map<RoleId, Role>, nextId: RoleId, parent: Option<RoleId>, id: RoleId)
    returns (found: bool)
    requires TableValid(rows, nextId)
    requires parent.Some? ==> parent.value in rows
    ensures found <==> Descends(rows, parent, id)
  {
    var p := parent;
    ghost var n: nat := 0;
    if p.Some? {
      n :| Ends(rows, p, n);
    }
    while p.Some?
      invariant p.Some? ==> p.value in rows
      invariant Ends(rows, p, n)
      invariant Descends(rows, parent, id) <==> Descends(rows, p, id)
      decreases n
    {
      if p.value == id {
        DescendsSelf(rows, p);
        return true;
      }
      DescendsStep(rows, p.value, id);
      p := rows[p.value].parent;
      n := n - 1;
    }
    DescendsSelf(rows, None);
    found := false;
  }

  /** Storing a role under `key` with a stored parent that does not descend from `key` keeps the table valid. */
  lemma StoreKeepsValid(rows: map<RoleId, Role>, nextId: RoleId, key: RoleId, role: Role)
    requires TableValid(rows, nextId)
    requires role.id == Some(key)
    requires role.parent.Some? ==> role.parent.value in rows
    requires !Descends(rows, role.parent, key)
    ensures TableValid(rows[key := role], if key >= nextId then key + 1 else nextId)
  {
    RewriteKeepsAcyclic(rows, key, role);
  }

  /** A fresh key is on no chain of the table. */
  lemma FreshKeyNotReached(rows: map<RoleId, Role>, nextId: RoleId, parent: Option<RoleId>)
    requires TableValid(rows, nextId)
    requires parent.Some? ==> parent.value in rows
    ensures !Descends(rows, parent, nextId)
  {
    if Descends(rows, parent, nextId) {
      var m: nat :| OnChain(rows, parent, nextId, m);
      OnChainIsStored(rows, parent, nextId, m);
    }
  }

  /** The table after deleting `key`: children of the deleted role lose their parent. */
  function DeleteRow(rows: map<RoleId, Role>, key: RoleId): (r: map<RoleId, Role>)
    ensures r.Keys == rows.Keys - {key}
    ensures forall k :: k in r ==> r[k] == if rows[k].parent == Some(key) then rows[k].(parent := None) else rows[k]
  {
    map k | k in rows && k != key :: if rows[k].parent == Some(key) then rows[k].(parent := None) else rows[k]
  }

  /** A chain of the old table that does not start at the deleted key still ends, and sooner. */
  lemma {:induction false} EndsAfterDelete(rows: map<RoleId, Role>, key: RoleId, p: Option<RoleId>, n: nat)
    requires Ends(rows, p, n) && p != Some(key)
    ensures Ends(DeleteRow(rows, key), p, n)
    decreases n
  {
    if p.Some? {
      var q := DeleteRow(rows, key)[p.value].parent;
      if q.Some? {
        EndsAfterDelete(rows, key, q, n - 1);
      }
    }
  }

  lemma DeleteKeepsValid(rows: map<RoleId, Role>, nextId: RoleId, key: RoleId)
    requires TableValid(rows, nextId)
    ensures TableValid(DeleteRow(rows, key), nextId)
  {
    var rows' := DeleteRow(rows, key);
    forall k | k in rows' ensures exists n :: Ends(rows', Some(k), n) {
      var n :| Ends(rows, Some(k), n);
      EndsAfterDelete(rows, key, Some(k), n);
    }
  }

  datatype SaveResult = RoleSaved(id: RoleId) | DataError(message: string)

  class RoleTable {
    var rows: map<RoleId, Role>
    /** The key the next inserted role receives. */
    var nextId: RoleId

    ghost predicate Valid()
      reads this
    {
      TableValid(rows, nextId)
    }

    constructor ()
      ensures Valid() && rows == map[] && nextId == 0
    {
      rows := map[];
      nextId := 0;
    }

    /**
     * `Role.save`: refused with `DataError` exactly when the role already has
     * a key and its new parent is that role or one of its descendants;
     * otherwise the role is stored under its key, or under the next key when
     * it has none.
     */
    method Save(role: Role) returns (r: SaveResult)
      requires Valid()
      requires role.parent.Some? ==> role.parent.value in rows
      modifies this
      ensures Valid()
      ensures r.DataError? <==> role.id.Some? && Descends(old(rows), role.parent, role.id.value)
      ensures r.DataError? ==> r.message == DESCENDANT_AS_PARENT && rows == old(rows) && nextId == old(nextId)
      ensures r.RoleSaved? ==>
                && r.id == (if role.id.Some? then role.id.value else old(nextId))
                && rows == old(rows)[r.id := role.(id := Some(r.id))]
    {
      var key;
      if role.id.Some? {
        var cycle := ChainReaches(rows, nextId, role.parent, role.id.value);
        if cycle {
          return DataError(DESCENDANT_AS_PARENT);
        }
        key := role.id.value;
      } else {
        FreshKeyNotReached(rows, nextId, role.parent);
        key := nextId;
      }
      StoreKeepsValid(rows, nextId, key, role.(id := Some(key)));
      rows := rows[key := role.(id := Some(key))];
      if key >= nextId {
        nextId := key + 1;
      }
      r := RoleSaved(key);
    }

    /**
     * Deleting a role: its row goes, and every role that had it as parent
     * keeps its row with no parent (`on_delete=SET_NULL`).
     */
    method Delete(key: RoleId)
      requires Valid()
      modifies this
      ensures Valid()
      ensures rows == DeleteRow(old(rows), key) && nextId == old(nextId)
    {
      DeleteKeepsValid(rows, nextId, key);
      rows := DeleteRow(rows, key);
    }
  }

  /** Every role on a chain starting at a stored role is stored. */
  lemma {:induction false} OnChainIsStored(rows: map<RoleId, Role>, p: Option<RoleId>, target: RoleId, n: nat)
    requires OnChain(rows, p, target, n)
    requires p.Some? ==> p.value in rows
    requires forall k :: k in rows && rows[k].parent.Some? ==> rows[k].parent.value in rows
    ensures target in rows
    decreases n
  {
    if p.value != target {
      OnChainIsStored(rows, rows[p.value].parent, target, n - 1);
    }
  }

  // ---------------------------------------------------------------------
  // Lookups and names
  // ---------------------------------------------------------------------

  predicate IsOwnerRole(r: Role) {
    r.name == OWNER_ROLE_NAME && r.isDefault
  }

  /** The smallest key in `[i, bound)` holding an owner role. */
  function OwnerKeyFrom(rows: map<RoleId, Role>, i: nat, bound: nat): (r: Option<RoleId>)
    ensures r.Some? ==> i <= r.value < bound && r.value in rows && IsOwnerRole(rows[r.value])
    ensures r.Some? ==> forall j :: i <= j < r.value && j in rows ==> !IsOwnerRole(rows[j])
    ensures r.None? ==> forall k :: i <= k < bound && k in rows ==> !IsOwnerRole(rows[k])
    decreases bound - i
  {
    if i >= bound then None
    else if i in rows && IsOwnerRole(rows[i]) then Some(i)
    else OwnerKeyFrom(rows, i + 1, bound)
  }

  /**
   * `RoleManager.get_owner_role`: of the roles named 'Owner' and marked
   * default, the key of the one with the smallest key, or nothing. `bound`
   * exceeds every stored key.
   */
  function GetOwnerRole(rows: map<RoleId, Role>, bound: nat): (r: Option<RoleId>)
    requires forall k :: k in rows ==> k < bound
    ensures r.Some? ==> r.value in rows && IsOwnerRole(rows[r.value])
    ensures r.Some? ==> forall j :: j in rows && IsOwnerRole(rows[j]) ==> r.value <= j
    ensures r.None? <==> forall k :: k in rows ==> !IsOwnerRole(rows[k])
  {
    OwnerKeyFrom(rows, 0, bound)
  }

  /** `display_name`: `'{owner}::{name}'` with an owner, the name alone without. */
  function DisplayName(r: Role): (s: string)
    ensures r.ownerName.None? ==> s == r.name
    ensures r.ownerName.Some? ==> s == r.ownerName.value + "::" + r.name
  {
    (if r.ownerName.Some? then r.ownerName.value + "::" else "") + r.name
  }

  /** `str(self.id)`: the key, or "None" before the first save. */
  function IdText(id: Option<RoleId>): (s: string)
    ensures '(' !in s
  {
    if id.Some? then IntToString(id.value) else "None"
  }

  /** `__str__`: `'{display_name}({id})'`. */
  function Str(r: Role): (s: string)
    ensures DisplayName(r) <= s && |s| > 0 && s[|s| - 1] == ')'
  {
    DisplayName(r) + "(" + IdText(r.id) + ")"
  }

  /** A saved role's key reads back from between the last parentheses of its string. */
  lemma StrIdentifiesRole(r: Role)
    requires r.id.Some?
    ensures var s := Str(r);
            ParseInt(AfterLast('(', s[..|s| - 1])) == Some(r.id.value as int)
  {
    var s := Str(r);
    var id := IdText(r.id);
    assert s[..|s| - 1] == DisplayName(r) + ['('] + id;
    AfterLastOfSuffix('(', DisplayName(r), id);
    IntToStringRoundTrip(r.id.value);
  }

  /** Saved roles with different keys have different strings. */
  lemma StrDistinguishesRoles(a: Role, b: Role)
    requires a.id.Some? && b.id.Some? && a.id != b.id
    ensures Str(a) != Str(b)
  {
    StrIdentifiesRole(a);
    StrIdentifiesRole(b);
  }
}
