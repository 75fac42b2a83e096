/**
 * The table provider: the endpoint of each listing, and the client-side
 * post-processing of the page of rows the server returned (filter by every
 * active rule, then sort by the sort rules, first rule first).
 *
 * Rows are JSON values and cells are read with `row[column]`. Cells compare
 * with JavaScript's `<` and `>` when both are numbers, both strings or both
 * booleans; any other pair of cells ties (undefined, null, arrays, objects and
 * mixed kinds), so the ordering facts are stated for columns whose cells all
 * have one kind.
 */
module TableContext {
  import opened Wrappers
  import Json
  import Text
  import Effects
  import Seqs

  datatype FilterRule = FilterRule(column: string, value: string, relation: string)
  datatype SortRule = SortRule(column: string, order: string)
  datatype TableState = TableState(page: int, filters: seq<FilterRule>, sorters: seq<SortRule>)

  /** The three listings a table can show. */
  datatype EntityType = Users | Subjects | Tasks

  function Name(t: EntityType): (r: string)
    ensures |r| > 1
  {
    match t
    case Users => "users"
    case Subjects => "subjects"
    case Tasks => "tasks"
  }

  /** The listing endpoint of a table type. */
  function Endpoint(t: EntityType): (r: string)
    ensures r == "/admin/" + Name(t)
  {
    match t
    case Users => "/admin/users"
    case Subjects => "/admin/subjects"
    case Tasks => "/admin/tasks"
  }

  /** Different table types never share an endpoint. */
  lemma EndpointInjective(s: EntityType, t: EntityType)
    requires s != t
    ensures Endpoint(s) != Endpoint(t)
  {
    assert Endpoint(s)[7] != Endpoint(t)[7];
  }

  // ---------------------------------------------------------------- filtering

  /** `(item[column] || '').toString().toLowerCase()`: a falsy cell reads as "". */
  function CellText(row: Json.Value, column: string): (r: string)
    ensures !Json.Truthy(Json.Get(row, column)) ==> r == ""
  {
    var v := Json.Get(row, column);
    Text.Lower(if Json.Truthy(v) then Json.ToJsString(v) else "")
  }

  /** One filter rule: a rule without a column or a value lets every row through;
      otherwise the lower-cased cell is compared with the lower-cased value by
      equality, by prefix, or (for "contains" and any other relation) by substring. */
  predicate Matches(row: Json.Value, rule: FilterRule) {
    if rule.column == "" || rule.value == "" then true
    else
      var item := CellText(row, rule.column);
      var wanted := Text.Lower(rule.value);
      if rule.relation == "equals" then item == wanted
      else if rule.relation == "startsWith" then Text.IsPrefix(wanted, item)
      else Text.Contains(item, wanted)
  }

  /** `filters.every(...)`. */
  predicate MatchesAll(row: Json.Value, rules: seq<FilterRule>) {
    forall k :: 0 <= k < |rules| ==> Matches(row, rules[k])
  }

  /** `rows.filter(...)`: the rows that match every rule, in their order. */
  function Filter(rows: seq<Json.Value>, rules: seq<FilterRule>): seq<Json.Value> {
    Seqs.Filter(rows, row => MatchesAll(row, rules))
  }

  /** The filter keeps exactly the matching rows, each as often as it occurs, in
      their order; with no rules it keeps every row. */
  lemma FilterKeepsMatching(rows: seq<Json.Value>, rules: seq<FilterRule>)
    ensures forall x :: x in Filter(rows, rules) ==> MatchesAll(x, rules)
    ensures forall x :: multiset(Filter(rows, rules))[x] == if MatchesAll(x, rules) then multiset(rows)[x] else 0
    ensures forall a, b :: rows == a + b ==> Filter(rows, rules) == Filter(a, rules) + Filter(b, rules)
    ensures rules == [] ==> Filter(rows, rules) == rows
  {
    var keep := row => MatchesAll(row, rules);
    Seqs.FilterKeeps(rows, keep);
    forall a, b | rows == a + b ensures Filter(rows, rules) == Filter(a, rules) + Filter(b, rules) {
      Seqs.FilterConcat(a, b, keep);
    }
    if rules == [] {
      Seqs.FilterAll(rows, keep);
    }
  }

  /** Matching ignores case in the filter value. */
  lemma MatchesIgnoresValueCase(row: Json.Value, rule: FilterRule)
    ensures Matches(row, rule) == Matches(row, rule.(value := Text.Lower(rule.value)))
  {
    var low := Text.Lower(rule.value);
    assert Text.Lower(low) == low;
  }

  /** For "contains" (and any relation other than "equals" and "startsWith"),
      a rule matches exactly when the lower-cased value occurs in the lower-cased cell. */
  lemma MatchesContains(row: Json.Value, rule: FilterRule)
    requires rule.column != "" && rule.value != ""
    requires rule.relation != "equals" && rule.relation != "startsWith"
    ensures Matches(row, rule) <==>
      exists i :: Text.OccursAt(CellText(row, rule.column), Text.Lower(rule.value), i)
  {
    Text.ContainsIff(CellText(row, rule.column), Text.Lower(rule.value));
  }

  /** A missing or falsy cell fails every rule that has a column and a value. */
  lemma FalsyCellFails(row: Json.Value, rule: FilterRule)
    requires rule.column != "" && rule.value != ""
    requires !Json.Truthy(Json.Get(row, rule.column))
    ensures !Matches(row, rule)
  {
    var wanted := Text.Lower(rule.value);
    assert |wanted| > 0;
    assert !Text.IsPrefix(wanted, "");
  }

  // ---------------------------------------------------------------- ordering

  /** JavaScript's `x < y` on two cells of the same kind; other pairs are never ordered. */
  predicate Less(x: Json.Value, y: Json.Value) {
    match (x, y)
    case (JNum(m), JNum(n)) => m < n
    case (JStr(s), JStr(t)) => Text.StrLess(s, t)
    case (JBool(p), JBool(q)) => !p && q
    case _ => false
  }

  /** The kind of a cell: cells of one kind are all mutually ordered or tied. */
  function Kind(v: Json.Value): (k: int)
    ensures 0 <= k < 4
  {
    match v
    case JNum(_) => 0
    case JStr(_) => 1
    case JBool(_) => 2
    case _ => 3
  }

  /** `valA > valB ? 1 : valA < valB ? -1 : 0`. */
  function Sign(x: Json.Value, y: Json.Value): (c: int)
    ensures c == 1 <==> Less(y, x)
    ensures c == -1 <==> Less(x, y) && !Less(y, x)
    ensures -1 <= c <= 1
  {
    if Less(y, x) then 1 else if Less(x, y) then -1 else 0
  }

  lemma LessAsymmetric(x: Json.Value, y: Json.Value)
    ensures !(Less(x, y) && Less(y, x))
  {
    if x.JStr? && y.JStr? && Text.StrLess(x.s, y.s) {
      Text.StrLessAsymmetric(x.s, y.s);
    }
  }

  lemma SignAntisymmetric(x: Json.Value, y: Json.Value)
    ensures Sign(x, y) == -Sign(y, x)
  {
    LessAsymmetric(x, y);
  }

  /** On cells of one kind, "not greater" is a total preorder. */
  lemma SignTransitive(x: Json.Value, y: Json.Value, z: Json.Value)
    requires Kind(x) == Kind(y) == Kind(z)
    requires Sign(x, y) <= 0 && Sign(y, z) <= 0
    ensures Sign(x, z) <= 0
    ensures Sign(x, z) == 0 ==> Sign(x, y) == 0 && Sign(y, z) == 0
  {
    LessAsymmetric(x, y);
    LessAsymmetric(y, z);
    LessAsymmetric(x, z);
    if x.JStr? {
      var a, b, c := x.s, y.s, z.s;
      if a != b { Text.StrLessTotal(a, b); }
      if b != c { Text.StrLessTotal(b, c); }
      if a != c { Text.StrLessTotal(a, c); }
      if Text.StrLess(a, b) && Text.StrLess(b, c) { Text.StrLessTransitive(a, b, c); }
      if Text.StrLess(c, a) && Text.StrLess(a, b) { Text.StrLessTransitive(c, a, b); }
      if Text.StrLess(b, c) && Text.StrLess(c, a) { Text.StrLessTransitive(b, c, a); }
      Text.StrLessIrreflexive(a);
      Text.StrLessIrreflexive(b);
    }
  }

  /** The comparison of two rows under one sort rule: the cell sign, negated
      unless the order is exactly "asc". */
  function KeySign(a: Json.Value, b: Json.Value, sorter: SortRule): (c: int)
    ensures -1 <= c <= 1
  {
    var comparison := Sign(Json.Get(a, sorter.column), Json.Get(b, sorter.column));
    if sorter.order == "asc" then comparison else -comparison
  }

  /** Only an order of exactly "asc" keeps the cell comparison; any other text,
      "ASC" included, reverses it. */
  lemma KeySignOrder(a: Json.Value, b: Json.Value, column: string, order: string)
    ensures order == "asc" ==> KeySign(a, b, SortRule(column, order)) == Sign(Json.Get(a, column), Json.Get(b, column))
    ensures order != "asc" ==> KeySign(a, b, SortRule(column, order)) == -Sign(Json.Get(a, column), Json.Get(b, column))
    ensures order != "asc" ==> KeySign(a, b, SortRule(column, order)) == KeySign(b, a, SortRule(column, "asc"))
  {
    SignAntisymmetric(Json.Get(a, column), Json.Get(b, column));
  }

  /** The sign of each sort rule for two rows, in rule order. */
  function KeySigns(a: Json.Value, b: Json.Value, sorters: seq<SortRule>): (r: seq<int>)
    ensures |r| == |sorters|
    ensures forall k :: 0 <= k < |sorters| ==> r[k] == KeySign(a, b, sorters[k])
  {
    seq(|sorters|, k requires 0 <= k < |sorters| => KeySign(a, b, sorters[k]))
  }

  /** The first non-zero entry, or 0 when there is none. */
  function FirstNonZero(xs: seq<int>): int {
    if xs == [] then 0 else if xs[0] != 0 then xs[0] else FirstNonZero(xs[1..])
  }

  /** The first non-zero entry is 0 or one of the entries, and it is 0
      exactly when every entry is. */
  lemma {:induction false} FirstNonZeroZeroIff(xs: seq<int>)
    ensures FirstNonZero(xs) == 0 || FirstNonZero(xs) in xs
    ensures FirstNonZero(xs) == 0 <==> forall k :: 0 <= k < |xs| ==> xs[k] == 0
  {
    if xs != [] {
      FirstNonZeroZeroIff(xs[1..]);
      assert forall k :: 1 <= k < |xs| ==> xs[k] == xs[1..][k - 1];
    }
  }

  /** A non-zero result is an entry with only zeros before it. */
  lemma {:induction false} FirstNonZeroFirst(xs: seq<int>)
    ensures FirstNonZero(xs) != 0 ==> exists k ::
              && 0 <= k < |xs|
              && FirstNonZero(xs) == xs[k]
              && (forall j :: 0 <= j < k ==> xs[j] == 0)
  {
    if xs != [] && xs[0] == 0 && FirstNonZero(xs) != 0 {
      var rest := xs[1..];
      FirstNonZeroFirst(rest);
      var k :| 0 <= k < |rest| && FirstNonZero(rest) == rest[k] && (forall j :: 0 <= j < k ==> rest[j] == 0);
      assert forall j :: 1 <= j < k + 1 ==> xs[j] == rest[j - 1];
      assert xs[k + 1] == rest[k];
    }
  }

  /** Looking from position `i` on: the entry there decides unless it is 0. */
  lemma FirstNonZeroStep(xs: seq<int>, i: int)
    requires 0 <= i < |xs|
    ensures FirstNonZero(xs[i..]) == if xs[i] != 0 then xs[i] else FirstNonZero(xs[i + 1..])
  {
    assert xs[i..][0] == xs[i];
    assert xs[i..][1..] == xs[i + 1..];
  }

  /** The row comparator: the first sort rule that tells the rows apart decides;
      0 when every rule ties. */
  function Cmp(a: Json.Value, b: Json.Value, sorters: seq<SortRule>): (c: int)
    ensures -1 <= c <= 1
  {
    var signs := KeySigns(a, b, sorters);
    FirstNonZeroZeroIff(signs);
    FirstNonZero(signs)
  }

  /** The comparator unfolded by one rule. */
  lemma CmpCons(a: Json.Value, b: Json.Value, sorters: seq<SortRule>)
    requires sorters != []
    ensures Cmp(a, b, sorters) ==
      if KeySign(a, b, sorters[0]) != 0 then KeySign(a, b, sorters[0]) else Cmp(a, b, sorters[1..])
  {
    assert KeySigns(a, b, sorters)[1..] == KeySigns(a, b, sorters[1..]);
  }

  /** The comparator ties exactly when every sort rule ties. */
  lemma CmpZeroIff(a: Json.Value, b: Json.Value, sorters: seq<SortRule>)
    ensures Cmp(a, b, sorters) == 0 <==> forall k :: 0 <= k < |sorters| ==> KeySign(a, b, sorters[k]) == 0
  {
    FirstNonZeroZeroIff(KeySigns(a, b, sorters));
  }

  /** A non-zero comparison is the sign of the first rule that does not tie. */
  lemma CmpFirstDecider(a: Json.Value, b: Json.Value, sorters: seq<SortRule>)
    ensures Cmp(a, b, sorters) != 0 ==> exists k ::
              && 0 <= k < |sorters|
              && Cmp(a, b, sorters) == KeySign(a, b, sorters[k])
              && (forall j :: 0 <= j < k ==> KeySign(a, b, sorters[j]) == 0)
  {
    FirstNonZeroFirst(KeySigns(a, b, sorters));
  }

  /** One turn's cell comparison: 1 when the first cell is greater, -1 when it
      is smaller, else 0. */
  method CompareCells(valA: Json.Value, valB: Json.Value) returns (comparison: int)
    ensures comparison == Sign(valA, valB)
  {
    comparison := 0;
    if Less(valB, valA) {
      comparison := 1;
    } else if Less(valA, valB) {
      comparison := -1;
    }
  }

  /** The comparator's `for` loop: returns at the first rule that tells the rows
      apart, with that rule's sign; 0 when every rule ties. */
  method CompareRows(a: Json.Value, b: Json.Value, sorters: seq<SortRule>) returns (c: int)
    ensures c == Cmp(a, b, sorters)
  {
    ghost var signs := KeySigns(a, b, sorters);
    var i := 0;
    while i < |sorters|
      invariant 0 <= i <= |sorters|
      invariant FirstNonZero(signs) == FirstNonZero(signs[i..])
    {
      FirstNonZeroStep(signs, i);
      var sorter := sorters[i];
      var valA := Json.Get(a, sorter.column);
      var valB := Json.Get(b, sorter.column);
      var comparison := CompareCells(valA, valB);
      if comparison != 0 {
        c := if sorter.order == "asc" then comparison else -comparison;
        return;
      }
      i := i + 1;
    }
    assert signs[i..] == [];
    return 0;
  }

  lemma {:induction false} CmpAntisymmetric(a: Json.Value, b: Json.Value, sorters: seq<SortRule>)
    ensures Cmp(a, b, sorters) == -Cmp(b, a, sorters)
  {
    if sorters != [] {
      var s := sorters[0];
      SignAntisymmetric(Json.Get(a, s.column), Json.Get(b, s.column));
      CmpCons(a, b, sorters);
      CmpCons(b, a, sorters);
      CmpAntisymmetric(a, b, sorters[1..]);
    }
  }

  /** Two rows whose cells have the same kind in every sorted column. */
  predicate Comparable(a: Json.Value, b: Json.Value, sorters: seq<SortRule>) {
    forall k :: 0 <= k < |sorters| ==> Kind(Json.Get(a, sorters[k].column)) == Kind(Json.Get(b, sorters[k].column))
  }

  /** One sort rule orders rows of one kind per column as a total preorder. */
  lemma KeySignTransitive(a: Json.Value, b: Json.Value, c: Json.Value, s: SortRule)
    requires Kind(Json.Get(a, s.column)) == Kind(Json.Get(b, s.column)) == Kind(Json.Get(c, s.column))
    requires KeySign(a, b, s) <= 0 && KeySign(b, c, s) <= 0
    ensures KeySign(a, c, s) <= 0
    ensures KeySign(a, c, s) == 0 ==> KeySign(a, b, s) == 0 && KeySign(b, c, s) == 0
  {
    var x, y, z := Json.Get(a, s.column), Json.Get(b, s.column), Json.Get(c, s.column);
    if s.order == "asc" {
      SignTransitive(x, y, z);
    } else {
      SignAntisymmetric(x, y);
      SignAntisymmetric(y, z);
      SignAntisymmetric(x, z);
      SignTransitive(z, y, x);
    }
  }

  lemma {:induction false} CmpTransitive(a: Json.Value, b: Json.Value, c: Json.Value, sorters: seq<SortRule>)
    requires Comparable(a, b, sorters) && Comparable(b, c, sorters)
    requires Cmp(a, b, sorters) <= 0 && Cmp(b, c, sorters) <= 0
    ensures Cmp(a, c, sorters) <= 0
  {
    if sorters != [] {
      var s := sorters[0];
      KeySignTransitive(a, b, c, s);
      CmpCons(a, b, sorters);
      CmpCons(b, c, sorters);
      CmpCons(a, c, sorters);
      if KeySign(a, b, s) == 0 && KeySign(b, c, s) == 0 {
        assert Comparable(a, b, sorters[1..]) && Comparable(b, c, sorters[1..]) by {
          forall k | 0 <= k < |sorters[1..]| ensures sorters[1..][k] == sorters[k + 1] { }
        }
        CmpTransitive(a, b, c, sorters[1..]);
      }
    }
  }

  // ---------------------------------------------------------------- sorting

  /** The engine's stable sort, as insertion from the back: a new element goes
      after every element that does not compare greater than it. */
  function Insert(s: seq<Json.Value>, x: Json.Value, sorters: seq<SortRule>): (r: seq<Json.Value>)
    ensures multiset(r) == multiset(s) + multiset{x}
  {
    if s == [] then [x]
    else if Cmp(s[|s| - 1], x, sorters) > 0 then
      assert s == s[..|s| - 1] + [s[|s| - 1]];
      Insert(s[..|s| - 1], x, sorters) + [s[|s| - 1]]
    else s + [x]
  }

  /** `rows.sort(compare)`: the sorted rows are a permutation of the input. */
  function Sort(rows: seq<Json.Value>, sorters: seq<SortRule>): (r: seq<Json.Value>)
    ensures multiset(r) == multiset(rows)
  {
    if rows == [] then []
    else
      assert rows == rows[..|rows| - 1] + [rows[|rows| - 1]];
      Insert(Sort(rows[..|rows| - 1], sorters), rows[|rows| - 1], sorters)
  }

  predicate Sorted(s: seq<Json.Value>, sorters: seq<SortRule>) {
    forall i, j :: 0 <= i < j < |s| ==> Cmp(s[i], s[j], sorters) <= 0
  }

  /** Every sorted column holds cells of one kind across `rows`. */
  predicate WellTyped(rows: seq<Json.Value>, sorters: seq<SortRule>) {
    forall x, y :: x in rows && y in rows ==> Comparable(x, y, sorters)
  }

  lemma WellTypedPair(rows: seq<Json.Value>, sorters: seq<SortRule>, y: Json.Value, z: Json.Value)
    requires WellTyped(rows, sorters) && y in rows && z in rows
    ensures Comparable(y, z, sorters)
  {
  }

  /** A sorted sequence stays sorted when an element not below any of its
      elements is appended. */
  lemma SortedAppend(s: seq<Json.Value>, x: Json.Value, sorters: seq<SortRule>)
    requires Sorted(s, sorters)
    requires forall i :: 0 <= i < |s| ==> Cmp(s[i], x, sorters) <= 0
    ensures Sorted(s + [x], sorters)
  {
    var r := s + [x];
    forall i, j | 0 <= i < j < |r| ensures Cmp(r[i], r[j], sorters) <= 0 {
      if j < |s| {
        assert r[i] == s[i] && r[j] == s[j];
      }
    }
  }

  /** Inserting behind a greater last element: everything before it stays below it. */
  lemma InsertBelowLast(init: seq<Json.Value>, last: Json.Value, x: Json.Value, sorters: seq<SortRule>)
    requires forall i :: 0 <= i < |init| ==> Cmp(init[i], last, sorters) <= 0
    requires Cmp(last, x, sorters) > 0
    requires Sorted(Insert(init, x, sorters), sorters)
    ensures Sorted(Insert(init, x, sorters) + [last], sorters)
  {
    var r := Insert(init, x, sorters);
    forall i | 0 <= i < |r| ensures Cmp(r[i], last, sorters) <= 0 {
      var y := r[i];
      assert y in multiset(r);
      if y == x {
        CmpAntisymmetric(last, x, sorters);
      } else {
        assert y in multiset(init);
      }
    }
    SortedAppend(r, last, sorters);
  }

  /** Every element of a sorted `s` is below `x` when its last element is. */
  lemma BelowThroughLast(s: seq<Json.Value>, x: Json.Value, rows: seq<Json.Value>, sorters: seq<SortRule>)
    requires s != [] && Sorted(s, sorters) && WellTyped(rows, sorters)
    requires x in rows && forall y :: y in s ==> y in rows
    requires Cmp(s[|s| - 1], x, sorters) <= 0
    ensures forall i :: 0 <= i < |s| ==> Cmp(s[i], x, sorters) <= 0
  {
    var last := s[|s| - 1];
    forall i | 0 <= i < |s| - 1 ensures Cmp(s[i], x, sorters) <= 0 {
      assert s[i] in s && last in s;
      WellTypedPair(rows, sorters, s[i], last);
      WellTypedPair(rows, sorters, last, x);
      CmpTransitive(s[i], last, x, sorters);
    }
  }

  lemma {:induction false} InsertSorted(s: seq<Json.Value>, x: Json.Value, rows: seq<Json.Value>, sorters: seq<SortRule>)
    requires Sorted(s, sorters) && WellTyped(rows, sorters)
    requires x in rows && forall y :: y in s ==> y in rows
    ensures Sorted(Insert(s, x, sorters), sorters)
  {
    if s != [] {
      var init, last := s[..|s| - 1], s[|s| - 1];
      if Cmp(last, x, sorters) > 0 {
        assert forall i :: 0 <= i < |init| ==> init[i] == s[i];
        assert forall y :: y in init ==> y in s;
        InsertSorted(init, x, rows, sorters);
        InsertBelowLast(init, last, x, sorters);
      } else {
        BelowThroughLast(s, x, rows, sorters);
        SortedAppend(s, x, sorters);
      }
    }
  }

  /** The stable sort orders its rows whenever every sorted column is well typed. */
  lemma {:induction false} SortSorted(rows: seq<Json.Value>, sorters: seq<SortRule>)
    requires WellTyped(rows, sorters)
    ensures Sorted(Sort(rows, sorters), sorters)
  {
    if rows != [] {
      var init := rows[..|rows| - 1];
      assert WellTyped(init, sorters) by {
        forall y | y in init ensures y in rows { }
      }
      SortSorted(init, sorters);
      var s := Sort(init, sorters);
      forall y | y in s ensures y in rows {
        assert y in multiset(s);
      }
      InsertSorted(s, rows[|rows| - 1], rows, sorters);
    }
  }

  /** When no sort rule tells any two rows apart the sort keeps the given order. */
  lemma {:induction false} SortAllTies(rows: seq<Json.Value>, sorters: seq<SortRule>)
    requires forall x, y :: x in rows && y in rows ==> Cmp(x, y, sorters) == 0
    ensures Sort(rows, sorters) == rows
  {
    if rows != [] {
      var init, x := rows[..|rows| - 1], rows[|rows| - 1];
      assert rows == init + [x];
      assert forall y :: y in init ==> y in rows;
      SortAllTies(init, sorters);
      assert Sort(rows, sorters) == Insert(init, x, sorters);
      assert Insert(init, x, sorters) == init + [x] by {
        if init != [] {
          assert init[|init| - 1] in rows;
        }
      }
    }
  }

  /** The rows that tie with `x` under every sort rule. */
  function Tie(x: Json.Value, sorters: seq<SortRule>): Json.Value -> bool {
    y => Cmp(y, x, sorters) == 0
  }

  /** A row above `y` cannot tie with a row that `y` ties with. */
  lemma AboveNoTie(z: Json.Value, y: Json.Value, x: Json.Value, rows: seq<Json.Value>, sorters: seq<SortRule>)
    requires WellTyped(rows, sorters) && x in rows && y in rows && z in rows
    requires Cmp(z, y, sorters) > 0 && Cmp(y, x, sorters) == 0
    ensures Cmp(z, x, sorters) != 0
  {
    if Cmp(z, x, sorters) == 0 {
      CmpAntisymmetric(y, x, sorters);
      WellTypedPair(rows, sorters, z, x);
      WellTypedPair(rows, sorters, x, y);
      CmpTransitive(z, x, y, sorters);
    }
  }

  /** Inserting `y` adds it to the rows tying with `x` at their end, if it ties,
      and leaves them alone otherwise: a row it passes over is above it, so it
      cannot tie with `x` when `y` does. */
  lemma {:induction false} InsertKeepsTieOrder(s: seq<Json.Value>, y: Json.Value, x: Json.Value,
                                               rows: seq<Json.Value>, sorters: seq<SortRule>)
    requires WellTyped(rows, sorters) && x in rows && y in rows && forall z :: z in s ==> z in rows
    ensures Seqs.Filter(Insert(s, y, sorters), Tie(x, sorters)) ==
      Seqs.Filter(s, Tie(x, sorters)) + Seqs.Filter([y], Tie(x, sorters))
  {
    var tie := Tie(x, sorters);
    if s == [] {
      assert Insert(s, y, sorters) == [y];
    } else {
      var init, last := s[..|s| - 1], s[|s| - 1];
      assert s == init + [last];
      Seqs.FilterConcat(init, [last], tie);
      if Cmp(last, y, sorters) > 0 {
        var inserted := Insert(init, y, sorters);
        assert Insert(s, y, sorters) == inserted + [last];
        assert forall z :: z in init ==> z in rows;
        InsertKeepsTieOrder(init, y, x, rows, sorters);
        Seqs.FilterConcat(inserted, [last], tie);
        var before, fy, fl := Seqs.Filter(init, tie), Seqs.Filter([y], tie), Seqs.Filter([last], tie);
        assert fy == [] || fl == [] by {
          Seqs.FilterSingleton(y, tie);
          Seqs.FilterSingleton(last, tie);
          if tie(y) {
            assert Cmp(y, x, sorters) == 0;
            AboveNoTie(last, y, x, rows, sorters);
            assert !tie(last);
          }
        }
        Seqs.SwapEmpty(before, fy, fl);
      } else {
        assert Insert(s, y, sorters) == s + [y];
        Seqs.FilterConcat(s, [y], tie);
      }
    }
  }

  lemma {:induction false} SortKeepsTieOrder(s: seq<Json.Value>, x: Json.Value, rows: seq<Json.Value>, sorters: seq<SortRule>)
    requires WellTyped(rows, sorters) && x in rows && forall z :: z in s ==> z in rows
    ensures Seqs.Filter(Sort(s, sorters), Tie(x, sorters)) == Seqs.Filter(s, Tie(x, sorters))
  {
    if s != [] {
      var init, last := s[..|s| - 1], s[|s| - 1];
      assert s == init + [last];
      assert forall z :: z in init ==> z in rows;
      SortKeepsTieOrder(init, x, rows, sorters);
      var sorted := Sort(init, sorters);
      forall z | z in sorted ensures z in rows {
        assert z in multiset(sorted);
      }
      InsertKeepsTieOrder(sorted, last, x, rows, sorters);
      Seqs.FilterConcat(init, [last], Tie(x, sorters));
    }
  }

  /** The sort is stable: for every row `x`, the rows that tie with it under
      every rule come out in the order they had on the page. */
  lemma SortStable(rows: seq<Json.Value>, sorters: seq<SortRule>, x: Json.Value)
    requires WellTyped(rows, sorters) && x in rows
    ensures Seqs.Filter(Sort(rows, sorters), Tie(x, sorters)) == Seqs.Filter(rows, Tie(x, sorters))
  {
    SortKeepsTieOrder(rows, x, rows, sorters);
  }

  // ---------------------------------------------------------------- the page

  /** `processedData`: no rows unless the page data is an array; then the rows
      that pass the filters (when there are any), sorted by the sort rules (when
      there are any). */
  function Process(pageData: Json.Value, state: TableState): seq<Json.Value> {
    if !pageData.JArr? then []
    else
      var processed := pageData.items;
      var filtered := if |state.filters| > 0 then Filter(processed, state.filters) else processed;
      if |state.sorters| > 0 then Sort(filtered, state.sorters) else filtered
  }

  /** What `processedData` promises: only matching rows, each matching row as
      often as on the page, in sort order when the sorted columns are well typed,
      and the page unchanged when there are no rules. */
  lemma ProcessCorrect(pageData: Json.Value, state: TableState)
    ensures !pageData.JArr? ==> Process(pageData, state) == []
    ensures pageData.JArr? ==> multiset(Process(pageData, state)) == multiset(Filter(pageData.items, state.filters))
    ensures forall x :: x in Process(pageData, state) ==> MatchesAll(x, state.filters)
    ensures pageData.JArr? && WellTyped(pageData.items, state.sorters) ==> Sorted(Process(pageData, state), state.sorters)
    ensures pageData.JArr? && state.filters == [] && state.sorters == [] ==> Process(pageData, state) == pageData.items
  {
    if pageData.JArr? {
      var rows := pageData.items;
      FilterKeepsMatching(rows, state.filters);
      var filtered := if |state.filters| > 0 then Filter(rows, state.filters) else rows;
      assert filtered == Filter(rows, state.filters);
      var r := Process(pageData, state);
      forall x | x in r ensures MatchesAll(x, state.filters) {
        assert x in multiset(r);
      }
      if WellTyped(rows, state.sorters) && |state.sorters| > 0 {
        assert WellTyped(filtered, state.sorters) by {
          forall y | y in filtered ensures y in rows {
            assert y in multiset(filtered);
          }
        }
        SortSorted(filtered, state.sorters);
      }
    }
  }

  // ---------------------------------------------------------------- the context value

  /** `getControlStatus()`: how many filter and sort rules are active. */
  datatype ControlStatus = ControlStatus(filterCount: nat, sorterCount: nat)

  function GetControlStatus(state: TableState): (r: ControlStatus)
    ensures r.filterCount == |state.filters| && r.sorterCount == |state.sorters|
  {
    ControlStatus(|state.filters|, |state.sorters|)
  }

  /** The fields of the table context that other components read. */
  datatype Context = Context(
    state: TableState,
    data: seq<Json.Value>,
    totalRecords: Json.Value,
    isLoading: bool,
    error: Option<string>,
    emptyMessage: string,
    refetch: Option<Effects.Callback>,
    updateState: Option<Effects.Callback>)

  /** `pagination?.total_count || 0`. */
  function TotalRecords(totalCount: Option<Json.Value>): (r: Json.Value)
    ensures Json.Truthy(r) ==> totalCount == Some(r)
    ensures !Json.Truthy(r) ==> r == Json.JNum(0)
    ensures totalCount.Some? && Json.Truthy(totalCount.value) ==> r == totalCount.value
  {
    match totalCount
    case Some(v) => if Json.Truthy(v) then v else Json.JNum(0)
    case None => Json.JNum(0)
  }

  /** `error?.message || null`. */
  function ErrorText(message: Option<string>): (r: Option<string>)
    ensures r.Some? <==> message.Some? && message.value != ""
    ensures r.Some? ==> r == message
  {
    match message
    case Some(m) => if m != "" then Some(m) else None
    case None => None
  }

  /** `useTableContext()`: fails outside a table provider. */
  function UseTableContext(context: Option<Context>): (r: Result<Context, string>)
    ensures r.Ok? <==> context.Some?
    ensures r.Ok? ==> r.value == context.value
  {
    match context
    case Some(c) => Ok(c)
    case None => Err("useTableContext must be used within a TableProvider")
  }
}
