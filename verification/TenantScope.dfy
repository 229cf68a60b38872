/** How the console splits resource rows between the platform pool and the
    tenants, in a tenant view and in the cross-tenant view. */
module TenantScope {
  const FILTER_ALL := "__all__"
  const FILTER_POOL := "__platform_pool__"

  datatype Scope = PlatformScope | Own | Other

  /** `stored` is the switcher's choice; "" is none. */
  datatype View = View(isPlatform: bool, stored: string) {
    predicate CrossView() {
      isPlatform && stored == ""
    }

    /** An absent row key is "". */
    function ScopeOf(rowKey: string): Scope {
      if rowKey == "" then PlatformScope
      else if !CrossView() && rowKey == stored then Own
      else Other
    }

    predicate CanManage(rowKey: string) {
      isPlatform || ScopeOf(rowKey) == Own
    }
  }

  /** A listed row: its tenant key and the rest of it. */
  datatype Row<T> = Row(key: string, body: T)

  function Filter<T(!new)>(rows: seq<Row<T>>, keep: string -> bool): (r: seq<Row<T>>)
    ensures forall row :: row in r <==> row in rows && keep(row.key)
  {
    if rows == [] then []
    else (if keep(rows[0].key) then [rows[0]] else []) + Filter(rows[1..], keep)
  }

  function FilterTenantRows<T(!new)>(v: View, rows: seq<Row<T>>): seq<Row<T>> {
    if v.CrossView() then rows else Filter(rows, k => v.ScopeOf(k) != Other)
  }

  function ApplyTenantFilter<T(!new)>(filter: string, rows: seq<Row<T>>): seq<Row<T>> {
    if filter == FILTER_ALL then rows
    else if filter == FILTER_POOL then Filter(rows, k => k == "")
    else Filter(rows, k => k == filter)
  }

  // ----- the options -----

  /** Code-point order, a proper prefix first. */
  predicate Before(a: string, b: string) {
    b != "" && (a == "" || a[0] < b[0] || (a[0] == b[0] && Before(a[1..], b[1..])))
  }

  /** The two agree up to `k` and `a` has the smaller character there. */
  predicate SmallerAt(a: string, b: string, k: nat) {
    k < |a| && k < |b| && a[..k] == b[..k] && a[k] < b[k]
  }

  lemma SmallerShifts(a: string, b: string, k: nat)
    requires a != "" && b != "" && a[0] == b[0]
    ensures SmallerAt(a, b, k + 1) <==> SmallerAt(a[1..], b[1..], k)
  {
    if k < |a[1..]| && k < |b[1..]| {
      assert a[..k + 1] == [a[0]] + a[1..][..k] && b[..k + 1] == [b[0]] + b[1..][..k];
      assert a[1..][..k] == a[..k + 1][1..] && b[1..][..k] == b[..k + 1][1..];
    }
  }

  lemma SharedStart(a: string, b: string, k: nat)
    requires 0 < k <= |a| && k <= |b| && a[..k] == b[..k]
    ensures a[0] == b[0]
  {
    assert a[..k][0] == b[..k][0];
  }

  lemma {:induction false} BeforeIsLexicographic(a: string, b: string)
    ensures Before(a, b) <==> (a <= b && a != b) || exists k: nat :: SmallerAt(a, b, k)
    decreases |a|
  {
    if a != "" && b != "" {
      forall k: nat | SmallerAt(a, b, k) ensures k == 0 || a[0] == b[0] {
        if k > 0 {
          SharedStart(a, b, k);
        }
      }
      if a[0] == b[0] {
        BeforeIsLexicographic(a[1..], b[1..]);
        assert a == [a[0]] + a[1..] && b == [b[0]] + b[1..];
        if k: nat :| SmallerAt(a[1..], b[1..], k) {
          SmallerShifts(a, b, k);
        }
        if k: nat :| SmallerAt(a, b, k) {
          SmallerShifts(a, b, k - 1);
        }
      } else {
        if a[0] < b[0] {
          assert SmallerAt(a, b, 0);
        }
      }
    }
  }

  lemma {:induction false} BeforeIsTotal(a: string, b: string)
    ensures a == b || Before(a, b) || Before(b, a)
    ensures !(Before(a, b) && Before(b, a)) && !Before(a, a)
    decreases |a|
  {
    if a != [] {
      BeforeIsTotal(a[1..], a[1..]);
      if b != [] {
        BeforeIsTotal(a[1..], b[1..]);
        assert a == [a[0]] + a[1..] && b == [b[0]] + b[1..];
      }
    }
  }

  lemma {:induction false} BeforeIsTransitive(a: string, b: string, c: string)
    requires Before(a, b) && Before(b, c)
    ensures Before(a, c)
    decreases |a|
  {
    if a != [] && a[0] == b[0] && b[0] == c[0] {
      BeforeIsTransitive(a[1..], b[1..], c[1..]);
    }
  }

  ghost predicate Ascending(keys: seq<string>) {
    forall i, j :: 0 <= i < j < |keys| ==> Before(keys[i], keys[j])
  }

  /** Places a key unless it is there already. */
  function Insert(keys: seq<string>, key: string): (r: seq<string>)
    requires Ascending(keys)
    ensures Ascending(r)
    ensures forall k :: k in r <==> k in keys || k == key
  {
    if keys == [] then [key]
    else if keys[0] == key then keys
    else if Before(key, keys[0]) then
      assert Ascending([key] + keys) by {
        forall j | 0 <= j < |keys| ensures Before(key, keys[j]) {
          if j > 0 {
            BeforeIsTransitive(key, keys[0], keys[j]);
          }
        }
      }
      [key] + keys
    else
      BeforeIsTotal(keys[0], key);
      assert keys == [keys[0]] + keys[1..];
      var rest := Insert(keys[1..], key);
      assert forall j :: 0 <= j < |rest| ==> rest[j] in rest;
      [keys[0]] + rest
  }

  /** The distinct non-empty keys of the rows, sorted. */
  function TenantKeys<T(!new)>(rows: seq<Row<T>>): (keys: seq<string>)
    ensures Ascending(keys)
    ensures forall k :: k in keys <==> k != "" && exists row :: row in rows && row.key == k
  {
    if rows == [] then []
    else
      var rest := TenantKeys(rows[1..]);
      assert rows == [rows[0]] + rows[1..];
      if rows[0].key == "" then rest else Insert(rest, rows[0].key)
  }

  function TenantFilterOptions<T(!new)>(rows: seq<Row<T>>): seq<string> {
    [FILTER_ALL, FILTER_POOL] + TenantKeys(rows)
  }

  // ----- the tenant view -----

  /** In a tenant view exactly the pool rows and the tenant's own rows survive,
      and a survivor a non-platform user cannot manage is a pool row. */
  lemma TenantViewShowsPoolAndOwn<T(!new)>(v: View, rows: seq<Row<T>>, row: Row<T>)
    requires !(v.isPlatform && v.stored == "")
    ensures row in FilterTenantRows(v, rows) <==> row in rows && (row.key == "" || row.key == v.stored)
    ensures row in FilterTenantRows(v, rows) && !v.CanManage(row.key) ==> row.key == ""
    ensures row in FilterTenantRows(v, rows) && row.key == "" ==> (v.CanManage(row.key) <==> v.isPlatform)
  {
  }

  /** The cross view is a platform operator's without a choice. There every row
      is listed and may be managed; whoever manages a row elsewhere is a platform
      operator or looks at a row of the chosen tenant's own. */
  lemma CrossViewShowsAll<T(!new)>(v: View, rows: seq<Row<T>>, key: string)
    ensures v.isPlatform && v.stored == "" ==> FilterTenantRows(v, rows) == rows
    ensures v.CanManage(key) <==> v.isPlatform || (key != "" && key == v.stored)
    ensures v.ScopeOf(key) == if key == "" then PlatformScope else if key == v.stored then Own else Other
  {
  }

  /** What each filter option lists, row by row. */
  lemma FilterListsItsRows<T(!new)>(filter: string, rows: seq<Row<T>>, row: Row<T>)
    ensures multiset(ApplyTenantFilter(filter, rows))[row]
            == if filter == FILTER_ALL || row.key == (if filter == FILTER_POOL then "" else filter)
               then multiset(rows)[row] else 0
    ensures filter == FILTER_ALL ==> ApplyTenantFilter(filter, rows) == rows
  {
    OptionCount(filter, rows, row);
  }

  /** The options offered: all, pool, then the tenants. */
  lemma OptionsOffered<T(!new)>(rows: seq<Row<T>>, option: string)
    ensures option in TenantFilterOptions(rows)
            <==> option in [FILTER_ALL, FILTER_POOL] || (option != "" && exists row :: row in rows && row.key == option)
    ensures |TenantFilterOptions(rows)| >= 2 && TenantFilterOptions(rows)[..2] == [FILTER_ALL, FILTER_POOL]
  {
  }

  // ----- the cross view -----

  /** The rows under each of the options, end to end. */
  function UnderOptions<T(!new)>(options: seq<string>, rows: seq<Row<T>>): seq<Row<T>> {
    if options == [] then []
    else ApplyTenantFilter(options[0], rows) + UnderOptions(options[1..], rows)
  }

  predicate Hit(option: string, key: string) {
    || option == FILTER_ALL
    || (option == FILTER_POOL && key == "")
    || (option != FILTER_POOL && option == key)
  }

  /** How often a row comes up under the options, for one occurrence in the list. */
  function Hits(options: seq<string>, key: string): nat {
    if options == [] then 0 else (if Hit(options[0], key) then 1 else 0) + Hits(options[1..], key)
  }

  lemma {:induction false} FilterCount<T(!new)>(rows: seq<Row<T>>, keep: string -> bool, row: Row<T>)
    ensures multiset(Filter(rows, keep))[row] == if keep(row.key) then multiset(rows)[row] else 0
  {
    if rows != [] {
      FilterCount(rows[1..], keep, row);
      assert rows == [rows[0]] + rows[1..];
    }
  }

  lemma OptionCount<T(!new)>(option: string, rows: seq<Row<T>>, row: Row<T>)
    ensures multiset(ApplyTenantFilter(option, rows))[row] == if Hit(option, row.key) then multiset(rows)[row] else 0
  {
    FilterCount(rows, k => k == "", row);
    FilterCount(rows, k => k == option, row);
  }

  function Times(h: nat, n: nat): nat {
    if h == 0 then 0 else n + Times(h - 1, n)
  }

  lemma UnderOneMore<T(!new)>(options: seq<string>, rows: seq<Row<T>>, row: Row<T>)
    requires options != []
    ensures multiset(UnderOptions(options, rows))[row]
            == (if Hit(options[0], row.key) then multiset(rows)[row] else 0)
             + multiset(UnderOptions(options[1..], rows))[row]
  {
    OptionCount(options[0], rows, row);
    hide ApplyTenantFilter, Hit;
  }

  lemma {:induction false} UnderOptionsCount<T(!new)>(options: seq<string>, rows: seq<Row<T>>, row: Row<T>)
    ensures multiset(UnderOptions(options, rows))[row] == Times(Hits(options, row.key), multiset(rows)[row])
  {
    hide Hit, ApplyTenantFilter;
    if options != [] {
      UnderOneMore(options, rows, row);
      UnderOptionsCount(options[1..], rows, row);
    }
  }

  /** Each key option hits its own rows, and a tenant whose key is a sentinel
      hits what the sentinel stands for instead. */
  lemma {:induction false} HitsOfKeys(keys: seq<string>, key: string)
    requires Ascending(keys) && "" !in keys
    ensures Hits(keys, key)
            == (if FILTER_ALL in keys then 1 else 0)
             + (if key == "" && FILTER_POOL in keys then 1 else 0)
             + (if key != FILTER_ALL && key != FILTER_POOL && key in keys then 1 else 0)
  {
    if keys != [] {
      var rest := keys[1..];
      assert keys == [keys[0]] + rest;
      assert keys[0] !in rest by {
        BeforeIsTotal(keys[0], keys[0]);
      }
      HitsOfKeys(rest, key);
    }
  }

  /** The pool option and the per-tenant options. */
  function Parts<T(!new)>(rows: seq<Row<T>>): seq<string> {
    TenantFilterOptions(rows)[1..]
  }

  lemma PartsHit<T(!new)>(rows: seq<Row<T>>, row: Row<T>)
    requires row in rows
    ensures var all := FILTER_ALL in TenantKeys(rows);
            Hits(Parts(rows), row.key)
            == (if row.key == "" then (if FILTER_POOL in TenantKeys(rows) then 2 else 1)
                else if row.key == FILTER_POOL || row.key == FILTER_ALL then 0 else 1)
             + (if all then 1 else 0)
  {
    var keys := TenantKeys(rows);
    assert Parts(rows) == [FILTER_POOL] + keys;
    assert Parts(rows)[1..] == keys;
    HitsOfKeys(keys, row.key);
    assert row.key != "" ==> row.key in keys;
  }

  ghost predicate Partitions<T(!new)>(rows: seq<Row<T>>) {
    multiset(UnderOptions(Parts(rows), rows)) == multiset(rows)
  }

  lemma {:induction false} TimesIsOnce(h: nat, n: nat)
    ensures Times(h, n) >= if h > 0 then n else 0
    ensures if n > 0 then Times(h, n) == n <==> h == 1 else Times(h, n) == 0
  {
    if h > 0 {
      TimesIsOnce(h - 1, n);
    }
  }

  lemma RowIsKept<T(!new)>(rows: seq<Row<T>>, row: Row<T>)
    ensures multiset(UnderOptions(Parts(rows), rows))[row] == multiset(rows)[row]
            <==> (row in rows ==> Hits(Parts(rows), row.key) == 1)
  {
    var h, n := Hits(Parts(rows), row.key), multiset(rows)[row];
    hide UnderOptions, Parts, Hits;
    UnderOptionsCount(Parts(rows), rows, row);
    TimesIsOnce(h, n);
    assert row in rows <==> n > 0;
  }

  lemma PartitionsWhenEachRowHitsOnce<T(!new)>(rows: seq<Row<T>>)
    ensures Partitions(rows) <==> forall row :: row in rows ==> Hits(Parts(rows), row.key) == 1
  {
    var under := multiset(UnderOptions(Parts(rows), rows));
    forall row
      ensures under[row] == multiset(rows)[row] <==> (row in rows ==> Hits(Parts(rows), row.key) == 1)
    {
      RowIsKept(rows, row);
    }
    if forall row :: row in rows ==> Hits(Parts(rows), row.key) == 1 {
      assert under == multiset(rows);
    }
  }

  /** The pool option and the per-tenant options split any list, each row under
      exactly one of them, exactly when no tenant is named like a sentinel; the
      one exception is a list of nothing but such rows, "all" among them. */
  lemma OptionsPartitionTheRows<T(!new)>(rows: seq<Row<T>>)
    ensures Partitions(rows) <==>
              || (forall row :: row in rows ==> row.key != FILTER_ALL && row.key != FILTER_POOL)
              || (&& (exists row :: row in rows && row.key == FILTER_ALL)
                  && (forall row :: row in rows ==> row.key == FILTER_ALL || row.key == FILTER_POOL))
  {
    PartitionsWhenEachRowHitsOnce(rows);
    forall row | row in rows
      ensures Hits(Parts(rows), row.key)
              == (if row.key == "" then (if FILTER_POOL in TenantKeys(rows) then 2 else 1)
                  else if row.key == FILTER_POOL || row.key == FILTER_ALL then 0 else 1)
               + (if FILTER_ALL in TenantKeys(rows) then 1 else 0)
    {
      PartsHit(rows, row);
    }
  }

  /** A tenant named like the pool sentinel is listed under neither part. */
  lemma SentinelTenantIsHidden<T(!new)>(row: Row<T>)
    requires row.key == FILTER_POOL
    ensures TenantKeys([row]) == [FILTER_POOL]
    ensures row !in UnderOptions(Parts([row]), [row]) && !Partitions([row])
  {
    var rows := [row];
    assert rows[1..] == [] && row in rows;
    assert TenantKeys(rows) == [FILTER_POOL];
    PartsHit(rows, row);
    UnderOptionsCount(Parts(rows), rows, row);
    OptionsPartitionTheRows(rows);
  }

  ghost predicate Subsequence<T(!new)>(sub: seq<Row<T>>, full: seq<Row<T>>) {
    sub == []
    || (full != [] && (Subsequence(sub, full[1..]) || (sub[0] == full[0] && Subsequence(sub[1..], full[1..]))))
  }

  /** Every option lists its rows in input order. */
  lemma {:induction false} FilterKeepsOrder<T(!new)>(rows: seq<Row<T>>, keep: string -> bool)
    ensures Subsequence(Filter(rows, keep), rows)
  {
    if rows != [] {
      FilterKeepsOrder(rows[1..], keep);
      if keep(rows[0].key) {
        assert Filter(rows, keep)[1..] == Filter(rows[1..], keep);
      } else {
        assert Filter(rows, keep) == Filter(rows[1..], keep);
      }
    }
  }
}
