/**
 * The `list` command of the Agora CLI (`list_entities` in src/scripts/agora.py):
 * the query string is built by appending `includedField=f&` for every included
 * field, `excludedField=f&` for every excluded field and `key=value&` for every
 * truthy scalar argument, then stripping trailing '&'.
 *
 * The scalar arguments are found by filtering argparse's whole Namespace dict;
 * Python 2 iterates that dict in an unspecified order, so the order is a
 * parameter here and the properties hold for every possible order.
 */
module AgoraList {
  import opened Wrappers
  import opened PyText
  import opened Agora

  /** A value stored in argparse's Namespace. */
  datatype ArgValue =
    | NoneValue
    | Text(s: string)
    | Number(n: int)
    | Flag(b: bool)
    | Strings(items: seq<string>)
    | Callable

  /** Python truthiness: None, "", 0, False and [] are false; a function is true. */
  function Truthy(v: ArgValue): (b: bool)
    ensures !b <==> v in {NoneValue, Text(""), Number(0), Flag(false), Strings([])}
  {
    match v
    case NoneValue => false
    case Text(s) => s != []
    case Number(n) => n != 0
    case Flag(b) => b
    case Strings(items) => items != []
    case Callable => true
  }

  /** The parsed arguments of `list`: the global flags plus the list subcommand's own. */
  datatype ListArgs = ListArgs(
    auth: Option<string>, configurations: bool, methods: bool,
    includedFields: Option<seq<string>>, excludedFields: Option<seq<string>>,
    namespace: Option<string>, name: Option<string>, snapshotId: Option<int>,
    synopsis: Option<string>, docs: Option<string>, owner: Option<string>,
    payload: Option<string>, entityType: Option<string>)

  function OptText(o: Option<string>): ArgValue
  {
    if o.Some? then Text(o.value) else NoneValue
  }

  /** The truthiness test of the Namespace filter agrees with the one of the push defaults. */
  lemma TruthyOfOptText(o: Option<string>)
    ensures Truthy(OptText(o)) <==> Given(o)
  {
  }

  /** `args.__dict__`: one entry per argparse destination, plus `func` from set_defaults. */
  function Namespace(a: ListArgs): (d: map<string, ArgValue>)
    ensures Reserved <= d.Keys
    ensures "snapshotId" in d && d["snapshotId"] == (if a.snapshotId.Some? then Number(a.snapshotId.value) else NoneValue)
    ensures "docs" in d && d["docs"] == OptText(a.docs)
    ensures forall k :: k in d && k !in Reserved ==>
              d[k] in {OptText(a.namespace), OptText(a.name), d["snapshotId"], OptText(a.synopsis),
                       OptText(a.docs), OptText(a.owner), OptText(a.payload), OptText(a.entityType)}
  {
    map[
      "auth" := OptText(a.auth),
      "configurations" := Flag(a.configurations),
      "methods" := Flag(a.methods),
      "func" := Callable,
      "includedFields" := (if a.includedFields.Some? then Strings(a.includedFields.value) else NoneValue),
      "excludedFields" := (if a.excludedFields.Some? then Strings(a.excludedFields.value) else NoneValue),
      "namespace" := OptText(a.namespace),
      "name" := OptText(a.name),
      "snapshotId" := (if a.snapshotId.Some? then Number(a.snapshotId.value) else NoneValue),
      "synopsis" := OptText(a.synopsis),
      "docs" := OptText(a.docs),
      "owner" := OptText(a.owner),
      "payload" := OptText(a.payload),
      "entityType" := OptText(a.entityType)]
  }

  /** The Namespace keys of the list subcommand's own filter arguments. */
  const FilterKeys: set<string> := {"namespace", "name", "snapshotId", "synopsis", "docs", "owner", "payload", "entityType"}

  /** The Namespace keys that are never sent as `key=value` filters. */
  const Reserved: set<string> := {"func", "auth", "methods", "configurations", "excludedFields", "includedFields"}

  /** The Namespace has exactly the reserved and the filter keys. */
  lemma NamespaceKeys(a: ListArgs)
    ensures Namespace(a).Keys == Reserved + FilterKeys
  {
  }

  /** The global flags, the handler and the field lists are stored under their destination names. */
  lemma ReservedEntriesStored(a: ListArgs)
    ensures var d := Namespace(a);
      && d["auth"] == OptText(a.auth) && d["configurations"] == Flag(a.configurations)
      && d["methods"] == Flag(a.methods) && d["func"] == Callable
      && d["includedFields"] == (if a.includedFields.Some? then Strings(a.includedFields.value) else NoneValue)
      && d["excludedFields"] == (if a.excludedFields.Some? then Strings(a.excludedFields.value) else NoneValue)
  {
  }

  /**
   * Each string filter argument is stored, unreserved, under its own destination
   * name (the Namespace contract states the same of snapshotId).
   */
  lemma FilterEntriesStored(a: ListArgs)
    ensures var d := Namespace(a);
      && "namespace" in d && "namespace" !in Reserved && d["namespace"] == OptText(a.namespace)
      && "name" in d && "name" !in Reserved && d["name"] == OptText(a.name)
      && "synopsis" in d && "synopsis" !in Reserved && d["synopsis"] == OptText(a.synopsis)
      && "docs" in d && "docs" !in Reserved && d["docs"] == OptText(a.docs)
  {
  }

  /** The remaining string filters, likewise. */
  lemma MoreFilterEntriesStored(a: ListArgs)
    ensures var d := Namespace(a);
      && "owner" in d && "owner" !in Reserved && d["owner"] == OptText(a.owner)
      && "payload" in d && "payload" !in Reserved && d["payload"] == OptText(a.payload)
      && "entityType" in d && "entityType" !in Reserved && d["entityType"] == OptText(a.entityType)
  {
  }

  /** The `trimmedArgs` comprehension: the truthy entries whose key is not reserved. */
  function Trimmed(d: map<string, ArgValue>): (t: map<string, ArgValue>)
    ensures forall k :: k in t <==> k in d && Truthy(d[k]) && k !in Reserved
    ensures forall k :: k in t ==> t[k] == d[k]
  {
    map k | k in d && Truthy(d[k]) && k !in Reserved :: d[k]
  }

  /** `order` lists every key of `t` exactly once: one way Python may iterate the dict. */
  predicate IsIterationOrder(order: seq<string>, t: map<string, ArgValue>)
  {
    && (forall i, j :: 0 <= i < j < |order| ==> order[i] != order[j])
    && (forall k :: k in order ==> k in t)
    && (forall k :: k in t ==> k in order)
  }

  /** Every value met along `order` is a string, so `queryString + key + "=" + value` works. */
  predicate AllText(order: seq<string>, t: map<string, ArgValue>)
  {
    forall i :: 0 <= i < |order| ==> order[i] in t && t[order[i]].Text?
  }

  // ---------------------------------------------------------------------------
  // The pairs of a query and their rendering

  function Piece(p: (string, string)): string
  {
    p.0 + "=" + p.1
  }

  /** The text the loops append for `pairs`: `key=value&` per pair, in order. */
  function Render(pairs: seq<(string, string)>): string
  {
    if pairs == [] then [] else Render(pairs[..|pairs| - 1]) + Piece(pairs[|pairs| - 1]) + "&"
  }

  /** One `(key, field)` pair per element of `fields`, in list order. */
  function FieldPairs(key: string, fields: seq<string>): (ps: seq<(string, string)>)
    ensures |ps| == |fields|
    ensures forall i :: 0 <= i < |fields| ==> ps[i] == (key, fields[i])
  {
    seq(|fields|, i requires 0 <= i < |fields| => (key, fields[i]))
  }

  /** One `(key, value)` pair per key of `order`, with its string value in `t`. */
  function ScalarPairs(order: seq<string>, t: map<string, ArgValue>): (ps: seq<(string, string)>)
    requires AllText(order, t)
    ensures |ps| == |order|
    ensures forall i :: 0 <= i < |order| ==> ps[i] == (order[i], t[order[i]].s)
  {
    seq(|order|, i requires 0 <= i < |order| && AllText(order, t) => (order[i], t[order[i]].s))
  }

  /** `if fields:` treats None and [] alike: nothing to append. */
  function OrEmpty(o: Option<seq<string>>): seq<string>
  {
    if o.Some? then o.value else []
  }

  /**
   * The pairs the three loops append: each included field first, in list
   * order, then each excluded field, then one pair per scalar key along `order`.
   */
  function AppendedPairs(inc: seq<string>, exc: seq<string>, order: seq<string>, t: map<string, ArgValue>)
    : (ps: seq<(string, string)>)
    requires AllText(order, t)
    ensures |ps| == |inc| + |exc| + |order|
    ensures forall i :: 0 <= i < |inc| ==> ps[i] == ("includedField", inc[i])
    ensures forall i :: 0 <= i < |exc| ==> ps[|inc| + i] == ("excludedField", exc[i])
    ensures forall i :: 0 <= i < |order| ==> ps[|inc| + |exc| + i] == (order[i], t[order[i]].s)
  {
    var fs := FieldPairs("includedField", inc) + FieldPairs("excludedField", exc);
    var sp := ScalarPairs(order, t);
    assert forall i :: 0 <= i < |sp| ==> (fs + sp)[|fs| + i] == sp[i];
    fs + sp
  }

  /** Every pair `list_entities` appends for `a`, with the dict iterated along `order`. */
  function QueryPairs(a: ListArgs, order: seq<string>): seq<(string, string)>
    requires AllText(order, Trimmed(Namespace(a)))
  {
    AppendedPairs(OrEmpty(a.includedFields), OrEmpty(a.excludedFields), order, Trimmed(Namespace(a)))
  }

  /**
   * `("?" + appended).rstrip("&")`: the appended text after '?', cut just before
   * its run of trailing '&'s.
   */
  function QueryString(pairs: seq<(string, string)>): (q: string)
    ensures var s := "?" + Render(pairs);
      && 1 <= |q| <= |s| && q == s[..|q|] && q[0] == '?'
      && q[|q| - 1] != '&'
      && forall k :: |q| <= k < |s| ==> s[k] == '&'
  {
    var s := "?" + Render(pairs);
    var q := RStrip(s, '&');
    assert s[0] == '?';
    assert q[0] == s[0];
    q
  }

  lemma RenderSnoc(pairs: seq<(string, string)>, p: (string, string))
    ensures Render(pairs + [p]) == Render(pairs) + Piece(p) + "&"
  {
    assert (pairs + [p])[..|pairs|] == pairs;
  }

  // ---------------------------------------------------------------------------
  // list_entities

  lemma {:induction false} RenderAppend(a: seq<(string, string)>, b: seq<(string, string)>)
    ensures Render(a + b) == Render(a) + Render(b)
    decreases |b|
  {
    if b == [] {
      assert a + b == a;
    } else {
      var b' := b[..|b| - 1];
      assert a + b == (a + b') + [b[|b| - 1]];
      assert b == b' + [b[|b| - 1]];
      RenderSnoc(a + b', b[|b| - 1]);
      RenderSnoc(b', b[|b| - 1]);
      RenderAppend(a, b');
    }
  }

  /** Appending the rendering of more pairs to a rendered prefix renders them all. */
  lemma RenderAfterPrefix(prefix: string, a: seq<(string, string)>, b: seq<(string, string)>)
    ensures (prefix + Render(a)) + Render(b) == prefix + Render(a + b)
  {
    RenderAppend(a, b);
    assert (prefix + Render(a)) + Render(b) == prefix + (Render(a) + Render(b));
  }

  /** One of the two field loops: appends `key=f&` for every `f` of `fields`, in order. */
  method AppendFieldPairs(queryString: string, key: string, fields: seq<string>) returns (q: string)
    ensures q == queryString + Render(FieldPairs(key, fields))
  {
    q := queryString;
    for i := 0 to |fields|
      invariant q == queryString + Render(FieldPairs(key, fields[..i]))
    {
      assert FieldPairs(key, fields[..i + 1]) == FieldPairs(key, fields[..i]) + [(key, fields[i])];
      RenderSnoc(FieldPairs(key, fields[..i]), (key, fields[i]));
      q := q + key + "=" + fields[i] + "&";
    }
    assert fields[..|fields|] == fields;
  }

  /** `e` reports the first key along `order` whose value is not a string. */
  predicate FirstNonText(order: seq<string>, t: map<string, ArgValue>, e: Error)
  {
    exists i :: 0 <= i < |order| && AllText(order[..i], t) && order[i] in t && !t[order[i]].Text?
                && e == NotConcatenable(order[i])
  }

  /**
   * The loop over `trimmedArgs.iteritems()`: appends `key=value&` for every key
   * along `order`, and fails, as Python's `str + int` does, at the first key
   * whose value is not a string.
   */
  method AppendScalarPairs(queryString: string, order: seq<string>, t: map<string, ArgValue>)
    returns (r: Result<string, Error>)
    requires forall i :: 0 <= i < |order| ==> order[i] in t
    ensures r.Success? <==> AllText(order, t)
    ensures r.Success? ==> r.value == queryString + Render(ScalarPairs(order, t))
    ensures r.Failure? ==> FirstNonText(order, t, r.error)
  {
    var q := queryString;
    for m := 0 to |order|
      invariant AllText(order[..m], t)
      invariant q == queryString + Render(ScalarPairs(order[..m], t))
    {
      var key := order[m];
      match t[key]
      case Text(value) =>
        assert AllText(order[..m + 1], t);
        assert ScalarPairs(order[..m + 1], t) == ScalarPairs(order[..m], t) + [(key, value)];
        RenderSnoc(ScalarPairs(order[..m], t), (key, value));
        q := q + key + "=" + value + "&";
      case _ =>
        r := Failure(NotConcatenable(key));
        assert AllText(order[..m], t) && order[m] in t && !t[order[m]].Text?;
        return;
    }
    assert order[..|order|] == order;
    r := Success(q);
  }

  /**
   * The body of `list_entities` from `queryString = "?"` to `rstrip("&")`, given
   * the two field lists and the trimmed scalar arguments.
   */
  method BuildQueryString(includedFields: Option<seq<string>>, excludedFields: Option<seq<string>>,
                          order: seq<string>, trimmed: map<string, ArgValue>)
    returns (r: Result<string, Error>)
    requires forall i :: 0 <= i < |order| ==> order[i] in trimmed
    ensures r.Success? <==> AllText(order, trimmed)
    ensures r.Success? ==> r.value == QueryString(AppendedPairs(OrEmpty(includedFields), OrEmpty(excludedFields),
                                                                order, trimmed))
    ensures r.Failure? ==> FirstNonText(order, trimmed, r.error)
  {
    var included := FieldPairs("includedField", OrEmpty(includedFields));
    var excluded := FieldPairs("excludedField", OrEmpty(excludedFields));
    var queryString := "?";
    if includedFields.Some? && includedFields.value != [] {
      queryString := AppendFieldPairs(queryString, "includedField", includedFields.value);
    }
    assert queryString == "?" + Render(included);
    if excludedFields.Some? && excludedFields.value != [] {
      queryString := AppendFieldPairs(queryString, "excludedField", excludedFields.value);
    } else {
      assert excluded == [];
      assert queryString == queryString + Render(excluded);
    }
    assert queryString == ("?" + Render(included)) + Render(excluded);
    RenderAfterPrefix("?", included, excluded);
    assert queryString == "?" + Render(included + excluded);
    var scalars := AppendScalarPairs(queryString, order, trimmed);
    if scalars.Failure? {
      return Failure(scalars.error);
    }
    RenderAfterPrefix("?", included + excluded, ScalarPairs(order, trimmed));
    assert scalars.value == "?" + Render(included + excluded + ScalarPairs(order, trimmed));
    r := Success(RStrip(scalars.value, '&'));
  }

  /** The query-string construction of `list_entities`. */
  method ListQueryString(args: ListArgs, order: seq<string>) returns (r: Result<string, Error>)
    requires IsIterationOrder(order, Trimmed(Namespace(args)))
    ensures r.Success? <==> AllText(order, Trimmed(Namespace(args)))
    ensures r.Success? ==> r.value == QueryString(QueryPairs(args, order))
    ensures r.Failure? ==> FirstNonText(order, Trimmed(Namespace(args)), r.error)
  {
    r := BuildQueryString(args.includedFields, args.excludedFields, order, Trimmed(Namespace(args)));
  }

  /**
   * `list_entities` up to the request: the endpoint is checked before the
   * query string is built, and the request is a GET of endpoint + query.
   */
  method ListEntities(args: ListArgs, order: seq<string>) returns (r: Result<Request, Error>)
    requires IsIterationOrder(order, Trimmed(Namespace(args)))
    ensures !args.configurations && !args.methods ==> r == Failure(NoEndpoint)
    ensures (args.configurations || args.methods) ==> (r.Success? <==> AllText(order, Trimmed(Namespace(args))))
    ensures (args.configurations || args.methods) && r.Failure? ==> FirstNonText(order, Trimmed(Namespace(args)), r.error)
    ensures r.Success? ==> r.value == EntityList(args.auth, GetEndpoint(args.configurations, args.methods).value,
                                                 QueryString(QueryPairs(args, order)))
  {
    var endpoint := GetEndpoint(args.configurations, args.methods);
    if endpoint.Failure? {
      return Failure(endpoint.error);
    }
    var query := ListQueryString(args, order);
    if query.Failure? {
      return Failure(query.error);
    }
    r := Success(EntityList(args.auth, endpoint.value, query.value));
  }

  // ---------------------------------------------------------------------------
  // What the query string says

  /** Without pairs the query string is "?" alone. */
  lemma EmptyQueryString(pairs: seq<(string, string)>)
    requires pairs == []
    ensures QueryString(pairs) == "?"
  {
    assert Render(pairs) == [];
  }

  /**
   * A scalar pair is present exactly when its key is a filter argument (not a
   * reserved key) whose value is a non-empty string: falsy values are dropped.
   */
  lemma ScalarPairsMembership(a: ListArgs, order: seq<string>, key: string, value: string)
    requires IsIterationOrder(order, Trimmed(Namespace(a)))
    requires AllText(order, Trimmed(Namespace(a)))
    ensures (key, value) in ScalarPairs(order, Trimmed(Namespace(a)))
            <==> key !in Reserved && key in Namespace(a) && Namespace(a)[key] == Text(value) && value != []
  {
    var d := Namespace(a);
    var t := Trimmed(d);
    var ps := ScalarPairs(order, t);
    if (key, value) in ps {
      var i :| 0 <= i < |ps| && ps[i] == (key, value);
      assert order[i] == key && key in t;
    }
    if key !in Reserved && key in d && d[key] == Text(value) && value != [] {
      assert key in t;
      var i :| 0 <= i < |order| && order[i] == key;
      assert ps[i] == (key, value);
    }
  }

  /** Each scalar key appears at most once, and a reserved key never appears. */
  lemma ScalarKeysDistinctAndUnreserved(a: ListArgs, order: seq<string>)
    requires IsIterationOrder(order, Trimmed(Namespace(a)))
    requires AllText(order, Trimmed(Namespace(a)))
    ensures var ps := ScalarPairs(order, Trimmed(Namespace(a)));
      && (forall i, j :: 0 <= i < j < |ps| ==> ps[i].0 != ps[j].0)
      && (forall i :: 0 <= i < |ps| ==> ps[i].0 !in Reserved)
  {
  }

  /** The documentation filter is sent under the key "docs", never "documentation". */
  lemma DocumentationFilterKey(a: ListArgs, order: seq<string>)
    requires IsIterationOrder(order, Trimmed(Namespace(a)))
    requires AllText(order, Trimmed(Namespace(a)))
    ensures var ps := ScalarPairs(order, Trimmed(Namespace(a)));
      && (Given(a.docs) ==> ("docs", a.docs.value) in ps)
      && (!Given(a.docs) ==> forall i :: 0 <= i < |ps| ==> ps[i].0 != "docs")
      && (forall i :: 0 <= i < |ps| ==> ps[i].0 != "documentation")
  {
    var ps := ScalarPairs(order, Trimmed(Namespace(a)));
    if Given(a.docs) {
      ScalarPairsMembership(a, order, "docs", a.docs.value);
    }
    forall i | 0 <= i < |ps|
      ensures ps[i].0 != "documentation" && (!Given(a.docs) ==> ps[i].0 != "docs")
    {
      ScalarPairsMembership(a, order, ps[i].0, ps[i].1);
    }
  }

  /**
   * The filter `o` is sent as `key=value` when it is a non-empty string, and no
   * pair with that key is sent otherwise.
   */
  predicate SentAs(ps: seq<(string, string)>, key: string, o: Option<string>)
  {
    && (Given(o) ==> (key, o.value) in ps)
    && (!Given(o) ==> forall i :: 0 <= i < |ps| ==> ps[i].0 != key)
  }

  /** A string filter stored under `key` is sent under that key exactly when it is truthy. */
  lemma FilterSent(a: ListArgs, order: seq<string>, key: string, o: Option<string>)
    requires IsIterationOrder(order, Trimmed(Namespace(a)))
    requires AllText(order, Trimmed(Namespace(a)))
    requires key in Namespace(a) && key !in Reserved && Namespace(a)[key] == OptText(o)
    ensures SentAs(ScalarPairs(order, Trimmed(Namespace(a))), key, o)
  {
    var ps := ScalarPairs(order, Trimmed(Namespace(a)));
    if Given(o) {
      ScalarPairsMembership(a, order, key, o.value);
    } else {
      forall i | 0 <= i < |ps|
        ensures ps[i].0 != key
      {
        ScalarPairsMembership(a, order, ps[i].0, ps[i].1);
      }
    }
  }

  /**
   * The string filters of the list subcommand, each with its argparse
   * destination name: the documentation filter is stored as "docs".
   */
  function StringFilters(a: ListArgs): seq<(string, Option<string>)>
  {
    [("namespace", a.namespace), ("name", a.name), ("synopsis", a.synopsis), ("docs", a.docs),
     ("owner", a.owner), ("payload", a.payload), ("entityType", a.entityType)]
  }

  /** Each string filter is stored, unreserved, under its destination name. */
  lemma StringFilterStored(a: ListArgs, i: int)
    requires 0 <= i < |StringFilters(a)|
    ensures var f := StringFilters(a)[i];
      f.0 in Namespace(a) && f.0 !in Reserved && Namespace(a)[f.0] == OptText(f.1)
  {
    FilterEntriesStored(a);
    MoreFilterEntriesStored(a);
  }

  /**
   * Every string filter of `list` is sent under its own destination name, with
   * the value given on the command line, exactly when it is non-empty:
   * `list --owner bob` sends `owner=bob`.
   */
  lemma StringFiltersSentUnderOwnKeys(a: ListArgs, order: seq<string>)
    requires IsIterationOrder(order, Trimmed(Namespace(a)))
    requires AllText(order, Trimmed(Namespace(a)))
    ensures var ps, fs := ScalarPairs(order, Trimmed(Namespace(a))), StringFilters(a);
      forall i :: 0 <= i < |fs| ==> SentAs(ps, fs[i].0, fs[i].1)
  {
    var fs := StringFilters(a);
    forall i | 0 <= i < |fs|
      ensures SentAs(ScalarPairs(order, Trimmed(Namespace(a))), fs[i].0, fs[i].1)
    {
      StringFilterStored(a, i);
      FilterSent(a, order, fs[i].0, fs[i].1);
    }
  }

  /**
   * `str + int` is the only way building the query can fail, so `list` fails
   * exactly when a non-zero --snapshotId is given.
   */
  lemma ListFailsOnlyOnSnapshotId(a: ListArgs, order: seq<string>)
    requires IsIterationOrder(order, Trimmed(Namespace(a)))
    ensures AllText(order, Trimmed(Namespace(a))) <==> !(a.snapshotId.Some? && a.snapshotId.value != 0)
  {
    var d := Namespace(a);
    var t := Trimmed(d);
    if a.snapshotId.Some? && a.snapshotId.value != 0 {
      assert "snapshotId" in t;
      var i :| 0 <= i < |order| && order[i] == "snapshotId";
      assert !t[order[i]].Text?;
    } else {
      forall i | 0 <= i < |order|
        ensures order[i] in t && t[order[i]].Text?
      {
        var k := order[i];
        assert k in d && k !in Reserved && Truthy(d[k]);
        assert k != "snapshotId";
      }
    }
  }

  lemma {:induction false} DistinctCount(s: seq<string>)
    requires forall i, j :: 0 <= i < j < |s| ==> s[i] != s[j]
    ensures |set x | x in s| == |s|
  {
    if s != [] {
      var s' := s[..|s| - 1];
      DistinctCount(s');
      assert (set x | x in s) == (set x | x in s') + {s[|s| - 1]};
      assert s[|s| - 1] !in (set x | x in s');
    }
  }

  /**
   * The unspecified dict order changes only the order of the scalar pairs:
   * two iteration orders give the same pairs, as many of them.
   */
  lemma ScalarPairsOrderIndependent(a: ListArgs, o1: seq<string>, o2: seq<string>)
    requires IsIterationOrder(o1, Trimmed(Namespace(a))) && AllText(o1, Trimmed(Namespace(a)))
    requires IsIterationOrder(o2, Trimmed(Namespace(a))) && AllText(o2, Trimmed(Namespace(a)))
    ensures var t := Trimmed(Namespace(a));
      && |ScalarPairs(o1, t)| == |ScalarPairs(o2, t)|
      && forall p :: p in ScalarPairs(o1, t) <==> p in ScalarPairs(o2, t)
  {
    var t := Trimmed(Namespace(a));
    DistinctCount(o1);
    DistinctCount(o2);
    assert (set x | x in o1) == (set x | x in o2);
    forall p
      ensures p in ScalarPairs(o1, t) <==> p in ScalarPairs(o2, t)
    {
      ScalarPairsMembership(a, o1, p.0, p.1);
      ScalarPairsMembership(a, o2, p.0, p.1);
    }
  }

  /** Without any scalar filter argument nothing survives the trimming. */
  lemma NothingTrimmedWithoutFilters(a: ListArgs)
    requires !Given(a.namespace) && !Given(a.name) && !Given(a.synopsis) && !Given(a.docs)
    requires !Given(a.owner) && !Given(a.payload) && !Given(a.entityType)
    requires a.snapshotId.None? || a.snapshotId.value == 0
    ensures Trimmed(Namespace(a)).Keys == {}
  {
    var d := Namespace(a);
    forall k | k in d && k !in Reserved
      ensures !Truthy(d[k])
    {
    }
  }

  /** An empty dict is iterated along the empty order. */
  lemma NoKeysNoOrder(order: seq<string>, t: map<string, ArgValue>)
    requires IsIterationOrder(order, t) && t.Keys == {}
    ensures order == []
  {
    DistinctCount(order);
    assert (set x | x in order) == t.Keys;
  }

  /** Without any filter argument the query string is "?" alone. */
  lemma NoFiltersGivesBareQuery(a: ListArgs, order: seq<string>)
    requires IsIterationOrder(order, Trimmed(Namespace(a)))
    requires OrEmpty(a.includedFields) == [] && OrEmpty(a.excludedFields) == []
    requires !Given(a.namespace) && !Given(a.name) && !Given(a.synopsis) && !Given(a.docs)
    requires !Given(a.owner) && !Given(a.payload) && !Given(a.entityType)
    requires a.snapshotId.None? || a.snapshotId.value == 0
    ensures AllText(order, Trimmed(Namespace(a)))
    ensures QueryString(QueryPairs(a, order)) == "?"
  {
    NothingTrimmedWithoutFilters(a);
    NoKeysNoOrder(order, Trimmed(Namespace(a)));
    assert |QueryPairs(a, order)| == 0;
    EmptyQueryString(QueryPairs(a, order));
  }

  // ---------------------------------------------------------------------------
  // Reading the query string back

  /** Splits `key=value` at its first '='. */
  function ParsePair(piece: string): (string, string)
  {
    var parts := Split(piece, '=');
    (parts[0], if |parts| == 1 then [] else Join(parts[1..], '='))
  }

  /** The pairs a server reads from `?k1=v1&k2=v2...`. */
  function ParseQuery(q: string): seq<(string, string)>
  {
    if |q| <= 1 then []
    else
      var pieces := Split(q[1..], '&');
      seq(|pieces|, i requires 0 <= i < |pieces| => ParsePair(pieces[i]))
  }

  /** Keys free of '&' and '=', values free of '&': nothing the query syntax would misread. */
  predicate WellFormedPairs(pairs: seq<(string, string)>)
  {
    forall i :: 0 <= i < |pairs| ==> '&' !in pairs[i].0 && '=' !in pairs[i].0 && '&' !in pairs[i].1
  }

  function Pieces(pairs: seq<(string, string)>): (r: seq<string>)
    ensures |r| == |pairs| && forall i :: 0 <= i < |pairs| ==> r[i] == Piece(pairs[i])
  {
    seq(|pairs|, i requires 0 <= i < |pairs| => Piece(pairs[i]))
  }

  lemma {:induction false} RenderIsJoin(pairs: seq<(string, string)>)
    requires pairs != []
    ensures Render(pairs) == Join(Pieces(pairs), '&') + "&"
    ensures var j := Join(Pieces(pairs), '&'); var last := Piece(pairs[|pairs| - 1]);
            |j| >= |last| && j[|j| - |last|..] == last
  {
    var init := pairs[..|pairs| - 1];
    var p := pairs[|pairs| - 1];
    if init == [] {
      assert Pieces(pairs) == [Piece(p)];
    } else {
      RenderIsJoin(init);
      assert Pieces(pairs) == Pieces(init) + [Piece(p)];
      JoinSnoc(Pieces(init), Piece(p), '&');
      var j := Join(Pieces(pairs), '&');
      assert j == (Join(Pieces(init), '&') + "&") + Piece(p);
    }
  }

  lemma ParsePairPiece(p: (string, string))
    requires '=' !in p.0
    ensures ParsePair(Piece(p)) == p
  {
    SplitCons(p.0, p.1, '=');
    assert Piece(p) == p.0 + ['='] + p.1;
    var parts := Split(Piece(p), '=');
    assert parts[1..] == Split(p.1, '=');
    JoinSplit(p.1, '=');
  }

  /** For non-empty well-formed pairs, `rstrip` removes exactly the final separator. */
  lemma QueryStringIsJoin(pairs: seq<(string, string)>)
    requires pairs != []
    requires WellFormedPairs(pairs)
    ensures QueryString(pairs) == "?" + Join(Pieces(pairs), '&')
  {
    var j := Join(Pieces(pairs), '&');
    RenderIsJoin(pairs);
    var last := Piece(pairs[|pairs| - 1]);
    assert last[|last| - 1] != '&';
    assert j[|j| - 1] == last[|last| - 1];
    var s := "?" + Render(pairs);
    assert s == ("?" + j) + "&";
    assert s[..|s| - 1] == "?" + j;
    assert RStrip("?" + j, '&') == "?" + j;
  }

  /**
   * Reading the query string back gives exactly the pairs it was built from,
   * in order, as long as no key holds '&' or '=' and no value holds '&'
   * (nothing is URL-encoded, so such characters would be misread).
   */
  lemma QueryRoundTrip(pairs: seq<(string, string)>)
    requires WellFormedPairs(pairs)
    ensures ParseQuery(QueryString(pairs)) == pairs
  {
    if pairs == [] {
      EmptyQueryString(pairs);
    } else {
      var pieces := Pieces(pairs);
      var j := Join(pieces, '&');
      QueryStringIsJoin(pairs);
      assert ("?" + j)[1..] == j;
      forall i | 0 <= i < |pieces|
        ensures '&' !in pieces[i]
      {
        assert pieces[i] == pairs[i].0 + "=" + pairs[i].1;
      }
      SplitJoin(pieces, '&');
      forall i | 0 <= i < |pairs|
        ensures ParsePair(pieces[i]) == pairs[i]
      {
        ParsePairPiece(pairs[i]);
      }
    }
  }

  /** `rstrip("&")` also eats a '&' that ends the last value: --name 'a&' is sent as name=a. */
  lemma TrailingAmpersandOfValueIsLost()
    ensures QueryString([("name", "a&")]) == "?name=a"
  {
    assert Render([("name", "a&")]) == "name=a&&" by {
      assert [("name", "a&")][..0] == [];
    }
    var s := "?name=a&&";
    assert "?" + "name=a&&" == s;
    assert s[..|s| - 1] == "?name=a&";
    assert "?name=a&"[..7] == "?name=a";
    assert RStrip("?name=a", '&') == "?name=a";
    assert RStrip("?name=a&", '&') == "?name=a";
    assert RStrip(s, '&') == "?name=a";
  }
}
