/**
 * The list and dictionary folding shared by the scrapers' `main`/`run`:
 * one task per (company, alias, source) in nesting order, in-order
 * concatenation of the task results, and the URL-keyed dictionary
 * comprehension used to drop duplicate articles.
 */
module Orchestration {
  import opened Wrappers

  // ---------------------------------------------------------------------------
  // Task enumeration
  // ---------------------------------------------------------------------------

  /** One entry of the `companies` dictionary: a canonical name and its aliases. */
  datatype Company = Company(name: string, aliases: seq<string>)

  /** One `scrape_source(source_name, config, query)` call, with the company
      whose alias produced the query. */
  datatype Task<S> = Task(company: string, query: string, source: S)

  /** The innermost `for source_name in sources` loop. */
  function SourceTasks<S>(company: string, query: string, sources: seq<S>): seq<Task<S>>
  {
    seq(|sources|, k requires 0 <= k < |sources| => Task(company, query, sources[k]))
  }

  /** The `for query in aliases` loop around it. */
  function AliasTasks<S>(company: string, aliases: seq<string>, sources: seq<S>): seq<Task<S>>
  {
    if aliases == [] then []
    else
      var front := aliases[..|aliases| - 1];
      AliasTasks(company, front, sources) + SourceTasks(company, aliases[|aliases| - 1], sources)
  }

  /** The whole nest `for company … for query … for source …`, in order. */
  function Tasks<S>(companies: seq<Company>, sources: seq<S>): seq<Task<S>>
  {
    if companies == [] then []
    else
      var last := companies[|companies| - 1];
      Tasks(companies[..|companies| - 1], sources) + AliasTasks(last.name, last.aliases, sources)
  }

  /** The three nested loops themselves, each appending the task of the
      innermost iteration. */
  method EnumerateTasks<S>(companies: seq<Company>, sources: seq<S>) returns (tasks: seq<Task<S>>)
    ensures tasks == Tasks(companies, sources)
  {
    tasks := [];
    for i := 0 to |companies|
      invariant tasks == Tasks(companies[..i], sources)
    {
      var c := companies[i];
      for j := 0 to |c.aliases|
        invariant tasks == Tasks(companies[..i], sources) + AliasTasks(c.name, c.aliases[..j], sources)
      {
        for k := 0 to |sources|
          invariant tasks == Tasks(companies[..i], sources) + AliasTasks(c.name, c.aliases[..j], sources)
                             + SourceTasks(c.name, c.aliases[j], sources[..k])
        {
          SourceTasksStep(c.name, c.aliases[j], sources, k);
          tasks := tasks + [Task(c.name, c.aliases[j], sources[k])];
        }
        assert sources[..|sources|] == sources;
        AliasTasksStep(c.name, c.aliases, sources, j);
      }
      assert c.aliases[..|c.aliases|] == c.aliases;
      TasksStep(companies, sources, i);
    }
    assert companies[..|companies|] == companies;
  }

  lemma SourceTasksStep<S>(company: string, query: string, sources: seq<S>, k: nat)
    requires k < |sources|
    ensures SourceTasks(company, query, sources[..k + 1])
         == SourceTasks(company, query, sources[..k]) + [Task(company, query, sources[k])]
  {
  }

  lemma AliasTasksStep<S>(company: string, aliases: seq<string>, sources: seq<S>, j: nat)
    requires j < |aliases|
    ensures AliasTasks(company, aliases[..j + 1], sources)
         == AliasTasks(company, aliases[..j], sources) + SourceTasks(company, aliases[j], sources)
  {
    assert aliases[..j + 1][..j] == aliases[..j];
  }

  lemma TasksStep<S>(companies: seq<Company>, sources: seq<S>, i: nat)
    requires i < |companies|
    ensures Tasks(companies[..i + 1], sources)
         == Tasks(companies[..i], sources) + AliasTasks(companies[i].name, companies[i].aliases, sources)
  {
    assert companies[..i + 1][..i] == companies[..i];
  }

  /** The number of aliases over all companies. */
  function TotalAliases(companies: seq<Company>): nat
  {
    if companies == [] then 0
    else TotalAliases(companies[..|companies| - 1]) + |companies[|companies| - 1].aliases|
  }

  lemma {:induction false} AliasTasksLength<S>(company: string, aliases: seq<string>, sources: seq<S>)
    ensures |AliasTasks(company, aliases, sources)| == |aliases| * |sources|
    decreases |aliases|
  {
    if aliases != [] {
      AliasTasksLength(company, aliases[..|aliases| - 1], sources);
      assert (|aliases| - 1) * |sources| + |sources| == |aliases| * |sources|;
    }
  }

  /** Exactly one task per (company, alias, source). */
  lemma {:induction false} TaskCount<S>(companies: seq<Company>, sources: seq<S>)
    ensures |Tasks(companies, sources)| == TotalAliases(companies) * |sources|
    decreases |companies|
  {
    if companies != [] {
      var n, m := |companies|, |sources|;
      var front, last := companies[..n - 1], companies[n - 1];
      assert Tasks(companies, sources) == Tasks(front, sources) + AliasTasks(last.name, last.aliases, sources);
      assert TotalAliases(companies) == TotalAliases(front) + |last.aliases|;
      TaskCount(front, sources);
      AliasTasksLength(last.name, last.aliases, sources);
      Distribute(TotalAliases(front), |last.aliases|, m);
    }
  }

  /** When every company has `a` aliases, there are `|companies| * a` of them. */
  lemma {:induction false} UniformAliases(companies: seq<Company>, a: nat)
    requires forall i :: 0 <= i < |companies| ==> |companies[i].aliases| == a
    ensures TotalAliases(companies) == |companies| * a
    decreases |companies|
  {
    if companies != [] {
      var front := companies[..|companies| - 1];
      assert forall i :: 0 <= i < |front| ==> front[i] == companies[i];
      UniformAliases(front, a);
      Distribute(|front|, 1, a);
    }
  }

  /** When every company has `a` aliases, there are `|companies| * a * |sources|`
      tasks. */
  lemma UniformTaskCount<S>(companies: seq<Company>, sources: seq<S>, a: nat)
    requires forall i :: 0 <= i < |companies| ==> |companies[i].aliases| == a
    ensures |Tasks(companies, sources)| == |companies| * a * |sources|
  {
    UniformAliases(companies, a);
    TaskCount(companies, sources);
  }

  lemma Distribute(a: nat, b: nat, n: nat)
    ensures (a + b) * n == a * n + b * n
  {
  }

  /** Within one company, the alias `j` with source `k` comes after the tasks
      of the aliases before it, at offset `k`. */
  lemma {:induction false} AliasTaskAt<S>(company: string, aliases: seq<string>, sources: seq<S>, j: nat, k: nat)
    requires j < |aliases| && k < |sources|
    ensures |AliasTasks(company, aliases[..j], sources)| + k < |AliasTasks(company, aliases, sources)|
    ensures AliasTasks(company, aliases, sources)[|AliasTasks(company, aliases[..j], sources)| + k]
         == Task(company, aliases[j], sources[k])
    decreases |aliases|
  {
    var n := |aliases|;
    var front := aliases[..n - 1];
    var t := Task(company, aliases[j], sources[k]);
    assert AliasTasks(company, aliases, sources)
        == AliasTasks(company, front, sources) + SourceTasks(company, aliases[n - 1], sources);
    if j == n - 1 {
      assert aliases[..j] == front;
      IndexPastPrefix(AliasTasks(company, front, sources), SourceTasks(company, aliases[n - 1], sources), k, t);
    } else {
      assert front[..j] == aliases[..j] && front[j] == aliases[j];
      AliasTaskAt(company, front, sources, j, k);
      IndexInPrefix(AliasTasks(company, front, sources), SourceTasks(company, aliases[n - 1], sources),
        |AliasTasks(company, front[..j], sources)| + k, t);
    }
  }

  /** The alias `j` of company `i` with source `k` comes after the tasks of the
      companies before `i` and of the aliases of `i` before `j`, at offset `k`:
      the nesting order company, then alias, then source. */
  lemma {:induction false} TaskAt<S>(companies: seq<Company>, sources: seq<S>, i: nat, j: nat, k: nat)
    requires i < |companies| && j < |companies[i].aliases| && k < |sources|
    ensures TaskIndex(companies, sources, i, j, k) < |Tasks(companies, sources)|
    ensures Tasks(companies, sources)[TaskIndex(companies, sources, i, j, k)]
         == Task(companies[i].name, companies[i].aliases[j], sources[k])
    decreases |companies|
  {
    var n := |companies|;
    var front, last := companies[..n - 1], companies[n - 1];
    var t := Task(companies[i].name, companies[i].aliases[j], sources[k]);
    assert Tasks(companies, sources) == Tasks(front, sources) + AliasTasks(last.name, last.aliases, sources);
    if i == n - 1 {
      assert companies[..i] == front;
      AliasTaskAt(last.name, last.aliases, sources, j, k);
      IndexPastPrefix(Tasks(front, sources), AliasTasks(last.name, last.aliases, sources),
        |AliasTasks(last.name, last.aliases[..j], sources)| + k, t);
    } else {
      assert front[..i] == companies[..i] && front[i] == companies[i];
      TaskAt(front, sources, i, j, k);
      IndexInPrefix(Tasks(front, sources), AliasTasks(last.name, last.aliases, sources),
        TaskIndex(front, sources, i, j, k), t);
    }
  }

  /** Where the task of company `i`, alias `j` and source `k` is submitted. */
  function TaskIndex<S>(companies: seq<Company>, sources: seq<S>, i: nat, j: nat, k: nat): nat
    requires i < |companies| && j <= |companies[i].aliases|
  {
    |Tasks(companies[..i], sources)| + |AliasTasks(companies[i].name, companies[i].aliases[..j], sources)| + k
  }

  /** That position counts the aliases before: `(aliases before company i + j) * |sources| + k`. */
  lemma TaskIndexValue<S>(companies: seq<Company>, sources: seq<S>, i: nat, j: nat, k: nat)
    requires i < |companies| && j <= |companies[i].aliases|
    ensures TaskIndex(companies, sources, i, j, k) == (TotalAliases(companies[..i]) + j) * |sources| + k
  {
    TaskCount(companies[..i], sources);
    AliasTasksLength(companies[i].name, companies[i].aliases[..j], sources);
    Distribute(TotalAliases(companies[..i]), j, |sources|);
  }

  lemma IndexInPrefix<T>(x: seq<T>, y: seq<T>, n: nat, t: T)
    requires n < |x| && x[n] == t
    ensures n < |x + y| && (x + y)[n] == t
  {
  }

  lemma IndexPastPrefix<T>(x: seq<T>, y: seq<T>, n: nat, t: T)
    requires n < |y| && y[n] == t
    ensures |x| + n < |x + y| && (x + y)[|x| + n] == t
  {
  }

  lemma {:induction false} AliasTaskOrigin<S>(company: string, aliases: seq<string>, sources: seq<S>, x: nat)
    requires x < |AliasTasks(company, aliases, sources)|
    ensures exists j, k | 0 <= j < |aliases| && 0 <= k < |sources| ::
      AliasTasks(company, aliases, sources)[x] == Task(company, aliases[j], sources[k])
    decreases |aliases|
  {
    var n := |aliases|;
    var front := aliases[..n - 1];
    var before := AliasTasks(company, front, sources);
    if x < |before| {
      AliasTaskOrigin(company, front, sources, x);
      var j, k :| 0 <= j < |front| && 0 <= k < |sources| && before[x] == Task(company, front[j], sources[k]);
      assert aliases[j] == front[j];
    } else {
      var k := x - |before|;
      assert AliasTasks(company, aliases, sources)[x] == Task(company, aliases[n - 1], sources[k]);
    }
  }

  /** Every submitted task comes from some company, one of its aliases and some source. */
  lemma {:induction false} TaskOrigin<S>(companies: seq<Company>, sources: seq<S>, x: nat)
    requires x < |Tasks(companies, sources)|
    ensures exists i, j, k | 0 <= i < |companies| && 0 <= j < |companies[i].aliases| && 0 <= k < |sources| ::
      Tasks(companies, sources)[x] == Task(companies[i].name, companies[i].aliases[j], sources[k])
    decreases |companies|
  {
    var n := |companies|;
    var front := companies[..n - 1];
    var before := Tasks(front, sources);
    if x < |before| {
      TaskOrigin(front, sources, x);
      var i, j, k :| 0 <= i < |front| && 0 <= j < |front[i].aliases| && 0 <= k < |sources|
        && before[x] == Task(front[i].name, front[i].aliases[j], sources[k]);
      assert companies[i] == front[i];
    } else {
      AliasTaskOrigin(companies[n - 1].name, companies[n - 1].aliases, sources, x - |before|);
      var j, k :| 0 <= j < |companies[n - 1].aliases| && 0 <= k < |sources|
        && AliasTasks(companies[n - 1].name, companies[n - 1].aliases, sources)[x - |before|]
           == Task(companies[n - 1].name, companies[n - 1].aliases[j], sources[k]);
      assert Tasks(companies, sources)[x] == Task(companies[n - 1].name, companies[n - 1].aliases[j], sources[k]);
    }
  }

  // ---------------------------------------------------------------------------
  // Aggregation of task results
  // ---------------------------------------------------------------------------

  /** What `future.result()` gives: the task's list, or an exception. */
  datatype TaskOutcome<T> = Completed(items: seq<T>) | Raised

  /** `for future in futures: try: all_results.extend(future.result()) except: pass`. */
  function Aggregate<T>(outcomes: seq<TaskOutcome<T>>): seq<T>
  {
    if outcomes == [] then []
    else
      var last := outcomes[|outcomes| - 1];
      Aggregate(outcomes[..|outcomes| - 1]) + (if last.Completed? then last.items else [])
  }

  lemma {:induction false} AggregateAppend<T>(a: seq<TaskOutcome<T>>, b: seq<TaskOutcome<T>>)
    ensures Aggregate(a + b) == Aggregate(a) + Aggregate(b)
    decreases |b|
  {
    if b == [] {
      assert a + b == a;
    } else {
      var b' := b[..|b| - 1];
      assert (a + b)[..|a + b| - 1] == a + b';
      assert (a + b)[|a + b| - 1] == b[|b| - 1];
      AggregateAppend(a, b');
    }
  }

  /** A task whose future raised contributes nothing, and the others are not disturbed. */
  lemma RaisedContributesNothing<T>(a: seq<TaskOutcome<T>>, b: seq<TaskOutcome<T>>)
    ensures Aggregate(a + [Raised] + b) == Aggregate(a) + Aggregate(b)
  {
    var one: seq<TaskOutcome<T>> := [Raised];
    assert Aggregate(one) == [] by {
      assert one[..0] == [];
    }
    AggregateAppend(a + one, b);
    AggregateAppend(a, one);
  }

  /** A result is aggregated exactly when some completed task returned it. */
  lemma {:induction false} AggregateMembership<T>(outcomes: seq<TaskOutcome<T>>, x: T)
    ensures x in Aggregate(outcomes)
        <==> exists i | 0 <= i < |outcomes| :: outcomes[i].Completed? && x in outcomes[i].items
    decreases |outcomes|
  {
    if outcomes != [] {
      var n := |outcomes|;
      var front := outcomes[..n - 1];
      AggregateMembership(front, x);
      if x in Aggregate(outcomes) {
        if x in Aggregate(front) {
          var i :| 0 <= i < |front| && front[i].Completed? && x in front[i].items;
          assert outcomes[i] == front[i];
        }
      }
      if exists i | 0 <= i < n :: outcomes[i].Completed? && x in outcomes[i].items {
        var i :| 0 <= i < n && outcomes[i].Completed? && x in outcomes[i].items;
        if i < n - 1 {
          assert front[i] == outcomes[i];
        }
      }
    }
  }

  // ---------------------------------------------------------------------------
  // Element loops: `for x in xs: try: … if keep: out.append(stub) except: continue`
  // ---------------------------------------------------------------------------

  /** The stubs `f` gives, in element order; `f` is `None` for an element that
      is skipped, whether by the filter or by an exception. */
  function Collect<E, A>(xs: seq<E>, f: E -> Option<A>): seq<A>
  {
    if xs == [] then []
    else
      var y := f(xs[|xs| - 1]);
      Collect(xs[..|xs| - 1], f) + (if y.Some? then [y.value] else [])
  }

  /** The output follows element order: the stubs of a prefix come first. */
  lemma {:induction false} CollectAppend<E, A>(a: seq<E>, b: seq<E>, f: E -> Option<A>)
    ensures Collect(a + b, f) == Collect(a, f) + Collect(b, f)
    decreases |b|
  {
    if b == [] {
      assert a + b == a;
    } else {
      var b' := b[..|b| - 1];
      assert (a + b)[..|a + b| - 1] == a + b';
      assert (a + b)[|a + b| - 1] == b[|b| - 1];
      CollectAppend(a, b', f);
    }
  }

  /** One more element adds its own stub, if any, at the end. */
  lemma CollectStep<E, A>(xs: seq<E>, i: nat, f: E -> Option<A>)
    requires i < |xs|
    ensures Collect(xs[..i + 1], f) == Collect(xs[..i], f) + (if f(xs[i]).Some? then [f(xs[i]).value] else [])
  {
    assert xs[..i + 1][..i] == xs[..i];
  }

  /** A skipped element removes only its own stub. */
  lemma CollectSkip<E, A>(a: seq<E>, x: E, b: seq<E>, f: E -> Option<A>)
    requires f(x).None?
    ensures Collect(a + [x] + b, f) == Collect(a, f) + Collect(b, f)
  {
    var one := [x];
    assert Collect(one, f) == [] by {
      assert one[..0] == [];
    }
    CollectAppend(a + one, b, f);
    CollectAppend(a, one, f);
  }

  /** A stub is collected exactly when some element gives it. */
  lemma {:induction false} CollectMembership<E, A>(xs: seq<E>, f: E -> Option<A>, y: A)
    ensures y in Collect(xs, f) <==> exists i :: 0 <= i < |xs| && f(xs[i]) == Some(y)
    decreases |xs|
  {
    if xs != [] {
      var n := |xs|;
      var front := xs[..n - 1];
      CollectMembership(front, f, y);
      if exists i :: 0 <= i < n && f(xs[i]) == Some(y) {
        var i :| 0 <= i < n && f(xs[i]) == Some(y);
        if i < n - 1 {
          assert front[i] == xs[i];
        }
      }
      if y in Collect(front, f) {
        var i :| 0 <= i < n - 1 && f(front[i]) == Some(y);
        assert xs[i] == front[i];
      }
    }
  }

  // ---------------------------------------------------------------------------
  // `{article["url"]: article for article in results}.values()`
  // ---------------------------------------------------------------------------

  /** A Python dictionary keyed by URL: its keys in insertion order and its entries. */
  datatype UrlDict<T> = UrlDict(keys: seq<string>, entries: map<string, T>)

  ghost predicate WellFormed<T>(d: UrlDict<T>) {
    && (forall i, j :: 0 <= i < j < |d.keys| ==> d.keys[i] != d.keys[j])
    && (forall u :: u in d.entries <==> u in d.keys)
  }

  /** `d[url(x)] = x`: a new key goes to the end, an existing key keeps its place
      and gets the new value. */
  function Put<T>(d: UrlDict<T>, x: T, url: T -> string): UrlDict<T>
  {
    var u := url(x);
    if u in d.entries then UrlDict(d.keys, d.entries[u := x])
    else UrlDict(d.keys + [u], d.entries[u := x])
  }

  /** The comprehension, one `Put` per element, left to right. */
  function Comprehension<T>(xs: seq<T>, url: T -> string): (d: UrlDict<T>)
    ensures WellFormed(d)
  {
    if xs == [] then UrlDict([], map[])
    else Put(Comprehension(xs[..|xs| - 1], url), xs[|xs| - 1], url)
  }

  /** `.values()`: the entries in key order. */
  function Values<T>(d: UrlDict<T>): seq<T>
    requires WellFormed(d)
  {
    seq(|d.keys|, i requires 0 <= i < |d.keys| => d.entries[d.keys[i]])
  }

  function DedupByUrl<T>(xs: seq<T>, url: T -> string): seq<T>
  {
    Values(Comprehension(xs, url))
  }

  // Reference definitions the dictionary is judged against.

  /** The last element of `xs` whose URL is `u`. */
  function LastWith<T>(xs: seq<T>, u: string, url: T -> string): Option<T>
  {
    if xs == [] then None
    else if url(xs[|xs| - 1]) == u then Some(xs[|xs| - 1])
    else LastWith(xs[..|xs| - 1], u, url)
  }

  /** The index of the first element of `xs` whose URL is `u`. */
  function FirstIndex<T>(xs: seq<T>, u: string, url: T -> string): (r: Option<nat>)
    ensures r.Some? ==> r.value < |xs| && url(xs[r.value]) == u
  {
    if xs == [] then None
    else match FirstIndex(xs[..|xs| - 1], u, url)
      case Some(k) => Some(k)
      case None => if url(xs[|xs| - 1]) == u then Some(|xs| - 1) else None
  }

  /** No element before the index found has URL `u`, and none is found exactly
      when no element has it. */
  lemma {:induction false} FirstIndexIsFirst<T>(xs: seq<T>, u: string, url: T -> string)
    ensures FirstIndex(xs, u, url).Some? ==> forall k :: 0 <= k < FirstIndex(xs, u, url).value ==> url(xs[k]) != u
    ensures FirstIndex(xs, u, url).None? <==> forall k :: 0 <= k < |xs| ==> url(xs[k]) != u
    decreases |xs|
  {
    if xs != [] {
      var front := xs[..|xs| - 1];
      FirstIndexIsFirst(front, u, url);
      assert forall k :: 0 <= k < |front| ==> front[k] == xs[k];
    }
  }

  /** The URL `u` first appears in `xs` before the URL `v` does. */
  ghost predicate AppearsBefore<T>(xs: seq<T>, u: string, v: string, url: T -> string) {
    FirstIndex(xs, u, url).Some? && FirstIndex(xs, v, url).Some?
    && FirstIndex(xs, u, url).value < FirstIndex(xs, v, url).value
  }

  lemma {:induction false} FirstIndexFound<T>(xs: seq<T>, k: nat, url: T -> string)
    requires k < |xs|
    ensures FirstIndex(xs, url(xs[k]), url).Some?
    decreases |xs|
  {
    if k < |xs| - 1 {
      FirstIndexFound(xs[..|xs| - 1], k, url);
      assert xs[..|xs| - 1][k] == xs[k];
    }
  }

  lemma {:induction false} ComprehensionFacts<T>(xs: seq<T>, url: T -> string)
    ensures var d := Comprehension(xs, url);
      && (forall u :: u in d.entries <==> FirstIndex(xs, u, url).Some?)
      && (forall u :: u in d.entries ==> LastWith(xs, u, url) == Some(d.entries[u]))
      && (forall i, j :: 0 <= i < j < |d.keys| ==> AppearsBefore(xs, d.keys[i], d.keys[j], url))
    decreases |xs|
  {
    if xs != [] {
      var ys, x := xs[..|xs| - 1], xs[|xs| - 1];
      ComprehensionFacts(ys, url);
      var d0 := Comprehension(ys, url);
      var d := Comprehension(xs, url);
      assert d == Put(d0, x, url);
      forall i, j | 0 <= i < j < |d.keys| ensures AppearsBefore(xs, d.keys[i], d.keys[j], url) {
        if j < |d0.keys| {
          assert AppearsBefore(ys, d0.keys[i], d0.keys[j], url);
          assert d.keys[i] == d0.keys[i] && d.keys[j] == d0.keys[j];
        } else {
          assert d.keys[j] == url(x) && url(x) !in d0.entries;
          assert d0.keys[i] in d0.entries;
          assert d.keys[i] == d0.keys[i];
        }
      }
    }
  }

  /** The result holds exactly one record per distinct URL of the input, in the
      order in which each URL first appears, and each record is an input element,
      the last one carrying its URL. */
  lemma DedupByUrlSpec<T>(xs: seq<T>, url: T -> string)
    ensures var r := DedupByUrl(xs, url);
      && (forall i, j :: 0 <= i < j < |r| ==> url(r[i]) != url(r[j]))
      && (forall k :: 0 <= k < |xs| ==> exists i :: 0 <= i < |r| && url(r[i]) == url(xs[k]))
      && (forall i :: 0 <= i < |r| ==> r[i] in xs && LastWith(xs, url(r[i]), url) == Some(r[i]))
      && (forall i, j :: 0 <= i < j < |r| ==> AppearsBefore(xs, url(r[i]), url(r[j]), url))
  {
    var d := Comprehension(xs, url);
    var r := DedupByUrl(xs, url);
    ComprehensionFacts(xs, url);
    forall i | 0 <= i < |r| ensures url(r[i]) == d.keys[i] && r[i] in xs && LastWith(xs, url(r[i]), url) == Some(r[i]) {
      var u := d.keys[i];
      assert u in d.entries;
      assert LastWith(xs, u, url) == Some(r[i]);
      LastWithUrl(xs, u, url);
    }
    forall k | 0 <= k < |xs| ensures exists i :: 0 <= i < |r| && url(r[i]) == url(xs[k]) {
      FirstIndexFound(xs, k, url);
      var u := url(xs[k]);
      assert u in d.keys;
      var i :| 0 <= i < |d.keys| && d.keys[i] == u;
      assert url(r[i]) == u;
    }
  }

  lemma {:induction false} LastWithUrl<T>(xs: seq<T>, u: string, url: T -> string)
    ensures LastWith(xs, u, url).Some? ==> url(LastWith(xs, u, url).value) == u
    ensures LastWith(xs, u, url).Some? ==> LastWith(xs, u, url).value in xs
    decreases |xs|
  {
    if xs != [] && url(xs[|xs| - 1]) != u {
      LastWithUrl(xs[..|xs| - 1], u, url);
    }
  }

  /** `xs[k]` has URL `u` and no later element has it. */
  predicate LastAt<T>(xs: seq<T>, u: string, url: T -> string, k: nat) {
    k < |xs| && url(xs[k]) == u && forall j :: k < j < |xs| ==> url(xs[j]) != u
  }

  /** `LastWith` finds nothing exactly when no element has the URL, and
      otherwise the element after which no other has it. */
  lemma {:induction false} LastWithIsLast<T>(xs: seq<T>, u: string, url: T -> string)
    ensures LastWith(xs, u, url).None? <==> forall k :: 0 <= k < |xs| ==> url(xs[k]) != u
    ensures LastWith(xs, u, url).Some? ==> exists k: nat :: LastAt(xs, u, url, k) && xs[k] == LastWith(xs, u, url).value
    decreases |xs|
  {
    if xs != [] {
      var n := |xs| - 1;
      var front := xs[..n];
      if url(xs[n]) == u {
        assert LastAt(xs, u, url, n);
      } else {
        LastWithIsLast(front, u, url);
        assert forall k :: 0 <= k < n ==> front[k] == xs[k];
        if LastWith(front, u, url).Some? {
          var k: nat :| LastAt(front, u, url, k) && front[k] == LastWith(front, u, url).value;
          assert LastAt(xs, u, url, k);
        }
      }
    }
  }
}
