// controllers/expenseController.js: any signed-in user records, lists
// and deletes their own spending; a listing may be limited to one
// calendar month and reports how many records it holds and their total.
module Expenses {
  import opened Common
  import opened ExpenseModel
  import Calendar
  import Sorting
  import Store

  /** The claims of a verified token the controller reads. Which id claim
      is present depends on the kind of account that signed in. */
  datatype Token = Token(
    vendorId: Option<nat>,
    buyerId: Option<nat>,
    userId: Option<nat>,
    id: Option<nat>,
    role: Option<string>)

  /** getUserId: the first id claim present, looked up in the order
      vendorId, buyerId, userId, _id. */
  function UserId(t: Token): (r: Option<nat>)
    ensures r.None? <==> t.vendorId.None? && t.buyerId.None? && t.userId.None? && t.id.None?
    ensures r.Some? ==> r == t.vendorId || r == t.buyerId || r == t.userId || r == t.id
    ensures t.vendorId.Some? ==> r == t.vendorId
    ensures t.vendorId.None? && t.buyerId.Some? ==> r == t.buyerId
    ensures t.vendorId.None? && t.buyerId.None? && t.userId.Some? ==> r == t.userId
  {
    if t.vendorId.Some? then t.vendorId
    else if t.buyerId.Some? then t.buyerId
    else if t.userId.Some? then t.userId
    else t.id
  }

  datatype ExpenseReply =
    | ExpenseAdded(id: nat)
    | Unauthorized
    | ExpenseNotFound
    | ExpenseDeleted
    | ServerError

  /** What the Expense schema demands of a new document: a role from the
      userType enum, a non-empty title and category, and an amount of at
      least 0. */
  predicate ExpenseValid(role: Option<string>, title: Option<string>, category: Option<string>, amount: Option<int>)
  {
    role.Some? && IsUserType(role.value) && Given(title) && Given(category) &&
    amount.Some? && amount.value >= 0
  }

  /** The new document; its date is today unless one was given. */
  function NewExpense(uid: nat, role: string, title: string, category: string, amount: int,
                      date: Option<int>, now: int): (e: Expense)
    ensures e.userId == uid && e.userType == role && e.amount == amount
    ensures e.title == title && e.category == category
    ensures date.Some? ==> e.date == date.value
    ensures date.None? ==> e.date == now
  {
    Expense(uid, role, title, category, amount, if date.Some? then date.value else now)
  }

  /** addExpense: 401 without an id claim; a document the schema refuses
      is a server error; otherwise the expense is stored under the
      token's id and role. */
  method AddExpense(db: Store.Db, token: Token, title: Option<string>, category: Option<string>,
                    amount: Option<int>, date: Option<int>, now: int)
    returns (reply: ExpenseReply)
    modifies db`expenses
    ensures UserId(token).None? ==> reply == Unauthorized && db.expenses == old(db.expenses)
    ensures UserId(token).Some? && !ExpenseValid(token.role, title, category, amount) ==>
              reply == ServerError && db.expenses == old(db.expenses)
    ensures UserId(token).Some? && ExpenseValid(token.role, title, category, amount) ==>
              reply == ExpenseAdded(|old(db.expenses)|) &&
              db.expenses == old(db.expenses) + [Some(NewExpense(UserId(token).value, token.role.value, title.value,
                                                                 category.value, amount.value, date, now))]
  {
    var uid := UserId(token);
    if uid.None? {
      return Unauthorized;
    }
    if !ExpenseValid(token.role, title, category, amount) {
      return ServerError;
    }
    var e := NewExpense(uid.value, token.role.value, title.value, category.value, amount.value, date, now);
    db.expenses := db.expenses + [Some(e)];
    reply := ExpenseAdded(|db.expenses| - 1);
  }

  // ---------------------------------------------------------------
  // Listing

  /** The first instant of the month window getExpenses builds. */
  function MonthStart(month: int, year: int, offset: int): int
  {
    Calendar.JsDate(year, month - 1, 1, 0, 0, 0, 0, offset)
  }

  /** The last instant of that window: 23:59:59.999 on day 0 of the next
      month, which is the month's last day. */
  function MonthEnd(month: int, year: int, offset: int): int
  {
    Calendar.JsDate(year, month, 0, 23, 59, 59, 999, offset)
  }

  /** The date filter: none unless both month and year were asked, and
      then both ends of the window are included. */
  predicate InPeriod(e: Expense, month: Option<int>, year: Option<int>, offset: int)
  {
    month.Some? && year.Some? ==>
      MonthStart(month.value, year.value, offset) <= e.date <= MonthEnd(month.value, year.value, offset)
  }

  predicate Matches(e: Expense, uid: nat, month: Option<int>, year: Option<int>, offset: int)
  {
    e.userId == uid && InPeriod(e, month, year, offset)
  }

  function MatchesFor(uid: nat, month: Option<int>, year: Option<int>, offset: int): Expense -> bool
  {
    (e: Expense) => Matches(e, uid, month, year, offset)
  }

  /** `.sort({ date: -1 })` */
  function LaterFirst(): (Expense, Expense) -> bool
  {
    (a: Expense, b: Expense) => a.date >= b.date
  }

  lemma LaterFirstIsOrder()
    ensures Sorting.Total(LaterFirst()) && Sorting.Transitive(LaterFirst())
  {
  }

  /** The `reduce` total: amounts added from the first to the last. */
  function Sum(s: seq<Expense>): int
  {
    if s == [] then 0 else Sum(s[..|s| - 1]) + s[|s| - 1].amount
  }

  lemma {:induction false} SumAppend(a: seq<Expense>, b: seq<Expense>)
    ensures Sum(a + b) == Sum(a) + Sum(b)
    decreases |b|
  {
    if b == [] {
      assert a + b == a;
    } else {
      assert (a + b)[..|a + b| - 1] == a + b[..|b| - 1];
      SumAppend(a, b[..|b| - 1]);
    }
  }

  /** The total does not depend on the order of the records. */
  lemma {:induction false} SumPermutation(a: seq<Expense>, b: seq<Expense>)
    requires multiset(a) == multiset(b)
    ensures Sum(a) == Sum(b)
    decreases |a|
  {
    if a != [] {
      var x := a[|a| - 1];
      var a' := a[..|a| - 1];
      assert a == a' + [x];
      assert x in multiset(b);
      var i :| 0 <= i < |b| && b[i] == x;
      var b' := b[..i] + b[i + 1..];
      assert multiset(a') == multiset(a) - multiset{x} by {
        assert multiset(a) == multiset(a') + multiset{x};
      }
      MultisetRemove(b, i);
      SumRemove(b, i);
      SumPermutation(a', b');
    }
  }

  /** Taking out the record at `i` takes one copy of it out of the
      multiset. */
  lemma MultisetRemove<T>(b: seq<T>, i: nat)
    requires i < |b|
    ensures multiset(b[..i] + b[i + 1..]) == multiset(b) - multiset{b[i]}
  {
    var l, x, r := b[..i], b[i], b[i + 1..];
    assert b == l + [x] + r;
    assert multiset(b) == multiset(l) + multiset{x} + multiset(r);
    assert multiset(l + r) == multiset(l) + multiset(r);
  }

  /** Taking out the record at `i` takes its amount out of the sum. */
  lemma SumRemove(b: seq<Expense>, i: nat)
    requires i < |b|
    ensures Sum(b) == Sum(b[..i] + b[i + 1..]) + b[i].amount
  {
    Sorting.SplitAt(b, i);
    SumAround(b, b[..i], b[i], b[i + 1..]);
  }

  lemma SumAround(b: seq<Expense>, l: seq<Expense>, x: Expense, r: seq<Expense>)
    requires b == l + [x] + r
    ensures Sum(b) == Sum(l + r) + x.amount
  {
    SumAppend(l + [x], r);
    SumAppend(l, [x]);
    SumAppend(l, r);
    assert Sum([x]) == x.amount by {
      assert [x][..0] == [];
    }
  }

  /** Every amount is at least 0, as the schema demands. */
  ghost predicate AmountsValid(expenses: seq<Option<Expense>>)
  {
    forall i :: 0 <= i < |expenses| && expenses[i].Some? ==> expenses[i].value.amount >= 0
  }

  lemma {:induction false} SumNonNegative(s: seq<Expense>)
    requires forall x :: x in s ==> x.amount >= 0
    ensures Sum(s) >= 0
    decreases |s|
  {
    if s != [] {
      assert s[|s| - 1] in s;
      SumNonNegative(s[..|s| - 1]);
    }
  }

  datatype ExpenseList = ExpenseList(count: nat, total: int, expenses: seq<Expense>)

  /** getExpenses for the caller `uid`: exactly their expenses in the
      asked month (all of them when none was asked), latest first, with
      their number and the sum of their amounts. */
  function GetExpenses(expenses: seq<Option<Expense>>, uid: nat, month: Option<int>, year: Option<int>,
                       offset: int): (r: ExpenseList)
    ensures forall x :: x in r.expenses <==> Some(x) in expenses && Matches(x, uid, month, year, offset)
    ensures multiset(r.expenses) == multiset(Sorting.Filter(Sorting.Live(expenses), MatchesFor(uid, month, year, offset)))
    ensures forall j, k :: 0 <= j < k < |r.expenses| ==> r.expenses[j].date >= r.expenses[k].date
    ensures r.count == |r.expenses| == |Sorting.Filter(Sorting.Live(expenses), MatchesFor(uid, month, year, offset))|
    ensures r.total == Sum(Sorting.Filter(Sorting.Live(expenses), MatchesFor(uid, month, year, offset)))
  {
    LaterFirstIsOrder();
    var matches := Sorting.Filter(Sorting.Live(expenses), MatchesFor(uid, month, year, offset));
    var sorted := Sorting.Sort(matches, LaterFirst());
    SumPermutation(sorted, matches);
    assert |sorted| == |multiset(sorted)| == |multiset(matches)| == |matches|;
    ExpenseList(|sorted|, Sum(sorted), sorted)
  }

  /** While the schema's bound holds, no listing has a negative total. */
  lemma TotalNonNegative(expenses: seq<Option<Expense>>, uid: nat, month: Option<int>, year: Option<int>, offset: int)
    requires AmountsValid(expenses)
    ensures GetExpenses(expenses, uid, month, year, offset).total >= 0
  {
    var r := GetExpenses(expenses, uid, month, year, offset);
    forall x | x in r.expenses ensures x.amount >= 0 {
      var i :| 0 <= i < |expenses| && expenses[i] == Some(x);
    }
    SumNonNegative(r.expenses);
    SumPermutation(r.expenses, Sorting.Filter(Sorting.Live(expenses), MatchesFor(uid, month, year, offset)));
  }

  // ---------------------------------------------------------------
  // Deleting

  predicate Owns(expenses: seq<Option<Expense>>, id: nat, uid: nat)
  {
    id < |expenses| && expenses[id].Some? && expenses[id].value.userId == uid
  }

  /** deleteExpense: removes the caller's expense; anyone else's id, or an
      unknown one, gives 404 and changes nothing. */
  method DeleteExpense(db: Store.Db, uid: nat, id: nat) returns (reply: ExpenseReply)
    modifies db`expenses
    ensures Owns(old(db.expenses), id, uid) ==> reply == ExpenseDeleted && db.expenses == old(db.expenses)[id := None]
    ensures !Owns(old(db.expenses), id, uid) ==> reply == ExpenseNotFound && db.expenses == old(db.expenses)
  {
    if !Owns(db.expenses, id, uid) {
      return ExpenseNotFound;
    }
    db.expenses := db.expenses[id := None];
    reply := ExpenseDeleted;
  }

  // ---------------------------------------------------------------
  // How the operations move a listing

  /** Both operations keep every stored amount at least 0. */
  lemma ChangesKeepAmounts(expenses: seq<Option<Expense>>, uid: nat, role: string, title: string,
                           category: string, amount: int, date: Option<int>, now: int, id: nat)
    requires AmountsValid(expenses)
    ensures amount >= 0 ==> AmountsValid(expenses + [Some(NewExpense(uid, role, title, category, amount, date, now))])
    ensures id < |expenses| ==> AmountsValid(expenses[id := None])
  {
    var e := NewExpense(uid, role, title, category, amount, date, now);
    if amount >= 0 {
      var s := expenses + [Some(e)];
      forall i | 0 <= i < |s| && s[i].Some? ensures s[i].value.amount >= 0 {
        if i < |expenses| {
          assert s[i] == expenses[i];
        }
      }
    }
  }

  /** A stored expense raises the count and the total of every listing it
      matches by one record and its amount, and leaves every other
      listing, including every other user's, as it was. */
  lemma AddMovesListing(expenses: seq<Option<Expense>>, e: Expense, uid: nat, month: Option<int>,
                        year: Option<int>, offset: int)
    ensures var before := GetExpenses(expenses, uid, month, year, offset);
            var after := GetExpenses(expenses + [Some(e)], uid, month, year, offset);
            if Matches(e, uid, month, year, offset)
            then after.count == before.count + 1 && after.total == before.total + e.amount
            else after == before
  {
    var p := MatchesFor(uid, month, year, offset);
    var listed := Sorting.Filter(Sorting.Live(expenses), p);
    var added := if p(e) then [e] else [];
    FilterLiveAppend(expenses, e, p);
    SumAppend(listed, added);
    assert Sum([e]) == e.amount by {
      assert [e][..0] == [];
    }
    var before := GetExpenses(expenses, uid, month, year, offset);
    var after := GetExpenses(expenses + [Some(e)], uid, month, year, offset);
    if !p(e) {
      assert Sorting.Filter(Sorting.Live(expenses + [Some(e)]), p) == Sorting.Filter(Sorting.Live(expenses), p);
    } else {
      assert |after.expenses| == |multiset(after.expenses)|;
      assert |before.expenses| == |multiset(before.expenses)|;
    }
  }

  /** The listing after an insert is the old listing, then the new record
      when it matches. */
  lemma FilterLiveAppend(expenses: seq<Option<Expense>>, e: Expense, p: Expense -> bool)
    ensures Sorting.Filter(Sorting.Live(expenses + [Some(e)]), p) ==
              Sorting.Filter(Sorting.Live(expenses), p) + (if p(e) then [e] else [])
  {
    Sorting.LiveAppend(expenses, [Some(e)]);
    assert Sorting.Live([Some(e)]) == [e] by {
      assert Sorting.Live([Some(e)]) == [e] + Sorting.Live([]);
    }
    Sorting.FilterAppend(Sorting.Live(expenses), [e], p);
    assert Sorting.Filter([e], p) == (if p(e) then [e] else []) + Sorting.Filter([], p);
  }

  /** Deleting an expense lowers the count and the total of every listing
      it matched by one record and its amount, and leaves every other
      listing as it was. */
  lemma DeleteMovesListing(expenses: seq<Option<Expense>>, id: nat, uid: nat, month: Option<int>,
                           year: Option<int>, offset: int)
    requires id < |expenses| && expenses[id].Some?
    ensures var e := expenses[id].value;
            var before := GetExpenses(expenses, uid, month, year, offset);
            var after := GetExpenses(expenses[id := None], uid, month, year, offset);
            if Matches(e, uid, month, year, offset)
            then after.count + 1 == before.count && after.total + e.amount == before.total
            else after.count == before.count && after.total == before.total
  {
    var e := expenses[id].value;
    LiveAround(expenses, id);
    DropOne(Sorting.Live(expenses[..id]), e, Sorting.Live(expenses[id + 1..]), MatchesFor(uid, month, year, offset));
  }

  /** The live documents on both sides of a slot, with and without the
      document in it. */
  lemma LiveAround(expenses: seq<Option<Expense>>, id: nat)
    requires id < |expenses| && expenses[id].Some?
    ensures var lf, lb := Sorting.Live(expenses[..id]), Sorting.Live(expenses[id + 1..]);
            Sorting.Live(expenses) == lf + [expenses[id].value] + lb &&
            Sorting.Live(expenses[id := None]) == lf + lb
  {
    var front, back := expenses[..id], expenses[id + 1..];
    assert expenses == front + [expenses[id]] + back;
    assert expenses[id := None] == front + [None] + back;
    Sorting.LiveSplit(front, expenses[id], back);
    Sorting.LiveSplit(front, None, back);
  }

  /** Taking one record out of a stretch removes it from the matches, with
      its amount, exactly when it matched. */
  lemma DropOne(lf: seq<Expense>, e: Expense, lb: seq<Expense>, p: Expense -> bool)
    ensures |Sorting.Filter(lf + [e] + lb, p)| == |Sorting.Filter(lf + lb, p)| + (if p(e) then 1 else 0)
    ensures Sum(Sorting.Filter(lf + [e] + lb, p)) == Sum(Sorting.Filter(lf + lb, p)) + (if p(e) then e.amount else 0)
  {
    Sorting.FilterSplit(lf, e, lb, p);
    Sorting.FilterAppend(lf, lb, p);
    var ff, fe, fb := Sorting.Filter(lf, p), if p(e) then [e] else [], Sorting.Filter(lb, p);
    SumAppend(ff + fe, fb);
    SumAppend(ff, fe);
    SumAppend(ff, fb);
    assert Sum([e]) == e.amount by {
      assert [e][..0] == [];
    }
  }

  // ---------------------------------------------------------------
  // Month windows

  /** The window of month m (1 to 12) is exactly that month's days, and
      the next month's window begins one millisecond after it ends. */
  lemma WindowIsMonth(month: int, year: int, offset: int)
    requires 1 <= month <= 12
    ensures MonthEnd(month, year, offset) - MonthStart(month, year, offset) + 1 ==
              Calendar.DaysInMonth(Calendar.FullYear(year), month) * DayMs
    ensures month < 12 ==> MonthEnd(month, year, offset) + 1 == MonthStart(month + 1, year, offset)
    ensures month == 12 && year != -1 && year != 99 ==> MonthEnd(month, year, offset) + 1 == MonthStart(1, year + 1, offset)
  {
    Calendar.MonthWindow(year, month, offset);
    if month == 12 && year != -1 && year != 99 {
      Calendar.YearRollover(year, 1, offset);
    }
  }

  /** The windows of two different months of a year never overlap, so a
      record is counted in at most one month's listing. */
  lemma MonthsDisjoint(e: Expense, m1: int, m2: int, year: int, offset: int)
    requires 1 <= m1 < m2 <= 12
    ensures !(InPeriod(e, Some(m1), Some(year), offset) && InPeriod(e, Some(m2), Some(year), offset))
  {
    Calendar.MonthWindow(year, m1, offset);
    StartsIncrease(m1 + 1, m2, year, offset);
  }

  lemma {:induction false} StartsIncrease(m1: int, m2: int, year: int, offset: int)
    requires 1 <= m1 <= m2 <= 12
    ensures MonthStart(m1, year, offset) <= MonthStart(m2, year, offset)
    decreases m2 - m1
  {
    if m1 < m2 {
      Calendar.MonthWindow(year, m1, offset);
      StartsIncrease(m1 + 1, m2, year, offset);
    }
  }
}
