/**
  The entities of the generated data layer, and the edges that their queries can
  load eagerly. Every query over them meets the assumptions of the general model.
 */
module Schema {
  import opened Store
  import opened EagerLoad
  import opened Refinement

  const ACCOUNT := Entity("accounts", [
    "id", "created_at", "updated_at", "deleted_at", "name", "account_level", "notes", "platform", "type",
    "credentials", "extra", "owner_user_id", "share_mode", "share_status", "share_policy_id", "proxy_id",
    "proxy_fallback_origin_id", "concurrency", "load_factor", "load_factor_paid_ceiling", "priority",
    "private_priority", "rate_multiplier", "status", "error_message", "last_used_at", "expires_at",
    "auto_pause_on_expired", "schedulable", "rate_limited_at", "rate_limit_reset_at", "overload_until",
    "temp_unschedulable_until", "temp_unschedulable_reason", "session_window_start", "session_window_end",
    "session_window_status", "parent_account_id", "quota_dimension"], true)

  const API_KEY := Entity("api_keys", [
    "id", "created_at", "updated_at", "deleted_at", "user_id", "key", "name", "group_id", "status",
    "last_used_at", "ip_whitelist", "ip_blacklist", "quota", "quota_used", "expires_at", "rate_limit_5h",
    "rate_limit_1d", "rate_limit_7d", "usage_5h", "usage_1d", "usage_7d", "window_5h_start",
    "window_1d_start", "window_7d_start"], true)

  /** The join entity has a composite key and no ID column. */
  const ACCOUNT_GROUP := Entity("account_groups", ["account_id", "group_id", "priority", "created_at"], false)

  /** The three entities above, or another one with an ID and the foreign keys
      that their edges use. */
  predicate IsEntity(e: Entity) {
    if e.table == ACCOUNT.table then e == ACCOUNT
    else if e.table == API_KEY.table then e == API_KEY
    else if e.table == ACCOUNT_GROUP.table then e == ACCOUNT_GROUP
    else
      && e.hasId && ID in e.columns
      && (e.table == "usage_logs" ==> "account_id" in e.columns && "api_key_id" in e.columns)
      && (e.table == "api_key_group_routes" ==> "api_key_id" in e.columns)
  }

  /** The edges of the three entities and the tables they lead to. */
  predicate IsEdge(from: Entity, e: Edge, to: Entity) {
    || (from == ACCOUNT && (
          || (e == M2M("groups", "account_groups") && to.table == "groups")
          || (e == M2O("proxy", "proxy_id", false) && to.table == "proxies")
          || (e == M2O("owner", "owner_user_id", false) && to.table == "users")
          || (e == M2O("parent", "parent_account_id", false) && to.table == "accounts")
          || (e == O2M("children", "parent_account_id", false) && to.table == "accounts")
          || (e == O2M("usage_logs", "account_id", true) && to.table == "usage_logs")
          || (e == O2M("account_groups", "account_id", true) && to.table == "account_groups")))
    || (from == API_KEY && (
          || (e == M2O("user", "user_id", true) && to.table == "users")
          || (e == M2O("group", "group_id", false) && to.table == "groups")
          || (e == O2M("group_routes", "api_key_id", true) && to.table == "api_key_group_routes")
          || (e == O2M("usage_logs", "api_key_id", true) && to.table == "usage_logs")))
    || (from == ACCOUNT_GROUP && (
          || (e == M2O("account", "account_id", true) && to.table == "accounts")
          || (e == M2O("group", "group_id", true) && to.table == "groups")))
  }

  /** The unique edges of an account are looked up by their own keys, which may be null. */
  lemma AccountKeys(e: Edge, to: Entity, row: Row)
    requires IsEdge(ACCOUNT, e, to) && e.M2O?
    ensures e.name == "proxy" ==> to.table == "proxies" && ForeignKey(row, e.fk, e.required) == Key(row, "proxy_id")
    ensures e.name == "owner" ==> to.table == "users" && ForeignKey(row, e.fk, e.required) == Key(row, "owner_user_id")
    ensures e.name == "parent" ==> to.table == "accounts" && ForeignKey(row, e.fk, e.required) == Key(row, "parent_account_id")
    ensures e.name in ["proxy", "owner", "parent"]
  {
    assert |"proxy"| == |"owner"| == 5 && "proxy"[0] != "owner"[0] && |"parent"| == 6;
  }

  predicate Conforms(q: Query) {
    && IsEntity(q.entity) && DistinctNames(q)
    && forall k :: 0 <= k < |q.withs| ==>
         IsEdge(q.entity, q.withs[k].edge, q.withs[k].sub.entity) && Conforms(q.withs[k].sub)
  }

  lemma EdgesFit(from: Entity, w: With)
    requires IsEdge(from, w.edge, w.sub.entity) && IsEntity(w.sub.entity)
    ensures FitsEdge(from, w)
  {
    if from == ACCOUNT {
      AccountEdgesFit(w);
    } else if from == API_KEY {
      ApiKeyEdgesFit(w);
    } else {
      AccountGroupEdgesFit(w);
    }
  }

  lemma AccountEdgesFit(w: With)
    requires IsEdge(ACCOUNT, w.edge, w.sub.entity) && IsEntity(w.sub.entity)
    ensures FitsEdge(ACCOUNT, w)
  {
    assert ACCOUNT.columns[11] == "owner_user_id" && ACCOUNT.columns[15] == "proxy_id";
    assert ACCOUNT.columns[37] == "parent_account_id" && ACCOUNT_GROUP.columns[0] == "account_id";
  }

  lemma ApiKeyEdgesFit(w: With)
    requires IsEdge(API_KEY, w.edge, w.sub.entity) && IsEntity(w.sub.entity)
    ensures FitsEdge(API_KEY, w)
  {
    assert API_KEY.columns[4] == "user_id" && API_KEY.columns[7] == "group_id";
  }

  lemma AccountGroupEdgesFit(w: With)
    requires IsEdge(ACCOUNT_GROUP, w.edge, w.sub.entity) && IsEntity(w.sub.entity)
    ensures FitsEdge(ACCOUNT_GROUP, w)
  {
    assert ACCOUNT_GROUP.columns[0] == "account_id" && ACCOUNT_GROUP.columns[1] == "group_id";
  }

  lemma {:induction false} ConformingIsWellTyped(q: Query)
    requires Conforms(q)
    ensures WellTyped(q)
    decreases q
  {
    assert ACCOUNT.columns[0] == ID && API_KEY.columns[0] == ID;
    forall k | 0 <= k < |q.withs| ensures FitsEdge(q.entity, q.withs[k]) && WellTyped(q.withs[k].sub) {
      ConformingIsWellTyped(q.withs[k].sub);
      EdgesFit(q.entity, q.withs[k]);
    }
  }

  /** For every eager-load tree over accounts, API keys and account groups, however
      deep it recurses through parents, children and groups, loading in batches
      agrees with looking up each edge of each node. */
  lemma EagerLoadingIsCorrect(db: Database, q: Query)
    requires Conforms(q) && Fresh(q) && NestedUnlimited(q) && Keyed(db, q)
    ensures BatchAll(db, q, q.cfg) == RefAll(db, q, q.cfg)
  {
    ConformingIsWellTyped(q);
    BatchRefinesLookup(db, q);
  }
}
