/**
 * The application store: the transaction log, the account, category and
 * category-budget registries, the overall budget and the settings, with the
 * operations that replace them and the two read-only queries (the all-time
 * balance of an account and the translation lookup).
 *
 * The body of every update is a pure `map` / `filter` transform, given here as a
 * function with its properties; the class `Store` holds the state and each of its
 * methods assigns the transform of the old state to the field it updates.
 */
module AppContext {
  import opened Types
  import opened Text
  import opened Sorting

  // ===================================================================
  // Account balance: the `reduce` over the whole log
  // ===================================================================

  /**
   * What one transaction adds to the balance of account `id`. The branches are
   * tried in the source's order: the own account of an income or expense first,
   * then the debit side of a transfer, then its credit side.
   */
  function Delta(tx: Transaction, id: string): int {
    if tx.accountId == Some(id) && tx.kind == Income then tx.amount
    else if tx.accountId == Some(id) && tx.kind == Expense then -tx.amount
    else if tx.fromAccountId == Some(id) then -tx.amount
    else if tx.toAccountId == Some(id) then tx.amount
    else 0
  }

  /** `getAccountBalance(id)`: the sum of `Delta` over the whole log. */
  function AccountBalance(txs: seq<Transaction>, id: string): int {
    if txs == [] then 0 else Delta(txs[0], id) + AccountBalance(txs[1..], id)
  }

  /** `tx` names account `id` in one of its three account references. */
  predicate Mentions(tx: Transaction, id: string) {
    tx.accountId == Some(id) || tx.fromAccountId == Some(id) || tx.toAccountId == Some(id)
  }

  /** The balance of an account is additive over any split of the log. */
  lemma {:induction false} BalanceAppend(a: seq<Transaction>, b: seq<Transaction>, id: string)
    ensures AccountBalance(a + b, id) == AccountBalance(a, id) + AccountBalance(b, id)
  {
    if a == [] {
      assert a + b == b;
    } else {
      assert (a + b)[1..] == a[1..] + b;
      BalanceAppend(a[1..], b, id);
    }
  }

  /** An account that no transaction names has balance 0. */
  lemma {:induction false} BalanceOfUnknown(txs: seq<Transaction>, id: string)
    requires forall i :: 0 <= i < |txs| ==> !Mentions(txs[i], id)
    ensures AccountBalance(txs, id) == 0
  {
    if txs != [] {
      BalanceOfUnknown(txs[1..], id);
    }
  }

  /**
   * Each branch of the fold, stated on its own: an income or expense booked on the
   * account moves it by the signed amount, a transfer out of it lowers it, a transfer
   * into it raises it, and a transaction that does not name it leaves it alone.
   */
  lemma DeltaCases(tx: Transaction, id: string)
    ensures tx.accountId == Some(id) && tx.kind == Income ==> Delta(tx, id) == tx.amount
    ensures tx.accountId == Some(id) && tx.kind == Expense ==> Delta(tx, id) == -tx.amount
    ensures tx.kind == Transfer && tx.fromAccountId == Some(id) ==> Delta(tx, id) == -tx.amount
    ensures (tx.kind == Transfer && tx.fromAccountId != Some(id) && tx.toAccountId == Some(id))
              ==> Delta(tx, id) == tx.amount
    ensures !Mentions(tx, id) ==> Delta(tx, id) == 0
  {
  }

  /** A transfer from an account to itself only fires the debit branch. */
  lemma SelfTransfer(txs: seq<Transaction>, tx: Transaction, id: string)
    requires tx.kind == Transfer && tx.fromAccountId == Some(id) && tx.toAccountId == Some(id)
    ensures AccountBalance([tx] + txs, id) == AccountBalance(txs, id) - tx.amount
  {
    assert ([tx] + txs)[1..] == txs;
  }

  // ===================================================================
  // Transaction log transforms
  // ===================================================================

  /** `{ ...tData, id }`: the record added for the entered data under a new id. */
  function WithId(data: Transaction, id: string): (r: Transaction)
    ensures r.id == id
    ensures r.(id := data.id) == data
  {
    data.(id := id)
  }

  /** The ids of the log, in order. */
  function TransactionIds(txs: seq<Transaction>): (r: seq<string>)
    ensures |r| == |txs|
    ensures forall i :: 0 <= i < |txs| ==> r[i] == txs[i].id
  {
    if txs == [] then [] else [txs[0].id] + TransactionIds(txs[1..])
  }

  predicate UniqueStrings(s: seq<string>) {
    forall i, j :: 0 <= i < j < |s| ==> s[i] != s[j]
  }

  /** `addTransaction`'s update: the new record in front of the old log. */
  function PrependTransaction(txs: seq<Transaction>, data: Transaction, id: string): (r: seq<Transaction>)
    ensures |r| == |txs| + 1
    ensures r[0] == WithId(data, id) && r[1..] == txs
  {
    [WithId(data, id)] + txs
  }

  /** With a fresh id the ids of the log stay unique. */
  lemma PrependKeepsIdsUnique(txs: seq<Transaction>, data: Transaction, id: string)
    requires UniqueStrings(TransactionIds(txs))
    requires id !in TransactionIds(txs)
    ensures UniqueStrings(TransactionIds(PrependTransaction(txs, data, id)))
  {
    var r := PrependTransaction(txs, data, id);
    forall i, j | 0 <= i < j < |r| ensures r[i].id != r[j].id {
      assert r[j] == txs[j - 1];
      if i > 0 {
        assert r[i] == txs[i - 1];
      } else {
        assert TransactionIds(txs)[j - 1] == r[j].id;
      }
    }
  }

  /** Adding a record moves every balance by exactly what that record contributes. */
  lemma PrependBalance(txs: seq<Transaction>, data: Transaction, id: string, acct: string)
    ensures AccountBalance(PrependTransaction(txs, data, id), acct)
         == Delta(data, acct) + AccountBalance(txs, acct)
  {
    var r := PrependTransaction(txs, data, id);
    assert r[1..] == txs;
  }

  /** `updateTransaction`'s update: every record with the same id becomes `data`. */
  function ReplaceTransaction(txs: seq<Transaction>, data: Transaction): (r: seq<Transaction>)
    ensures |r| == |txs|
    ensures forall i :: 0 <= i < |txs| ==> r[i] == if txs[i].id == data.id then data else txs[i]
  {
    if txs == [] then []
    else [if txs[0].id == data.id then data else txs[0]] + ReplaceTransaction(txs[1..], data)
  }

  /** The ids of the log do not change, and replacing twice is replacing once. */
  lemma ReplaceTransactionLaws(txs: seq<Transaction>, data: Transaction)
    ensures TransactionIds(ReplaceTransaction(txs, data)) == TransactionIds(txs)
    ensures ReplaceTransaction(ReplaceTransaction(txs, data), data) == ReplaceTransaction(txs, data)
    ensures data.id !in TransactionIds(txs) ==> ReplaceTransaction(txs, data) == txs
  {
    var r := ReplaceTransaction(txs, data);
    assert TransactionIds(r) == TransactionIds(txs);
    var rr := ReplaceTransaction(r, data);
    assert rr == r;
    if data.id !in TransactionIds(txs) {
      forall i | 0 <= i < |txs| ensures r[i] == txs[i] {
        assert TransactionIds(txs)[i] == txs[i].id;
      }
    }
  }

  /** The test `deleteTransaction` filters by: a record with another id. */
  function OtherTransaction(id: string): Transaction -> bool {
    (tx: Transaction) => tx.id != id
  }

  /**
   * `deleteTransaction`'s update: the `filter` of the log by `OtherTransaction(id)`,
   * so every record with another id stays, as often as before and in its order.
   */
  function RemoveTransaction(txs: seq<Transaction>, id: string): (r: seq<Transaction>)
    ensures forall x :: x in r <==> x in txs && x.id != id
    ensures forall x :: multiset(r)[x] == if x.id != id then multiset(txs)[x] else 0
    ensures |r| <= |txs|
  {
    FilterCounts(txs, OtherTransaction(id));
    Filter(txs, OtherTransaction(id))
  }

  /** The test of the records a delete removes: the record has that id. */
  function SameTransaction(id: string): Transaction -> bool {
    (tx: Transaction) => tx.id == id
  }

  /** The records a delete removes: the `filter` by `SameTransaction(id)`. */
  function TransactionsWithId(txs: seq<Transaction>, id: string): (r: seq<Transaction>)
    ensures forall x :: x in r <==> x in txs && x.id == id
  {
    Filter(txs, SameTransaction(id))
  }

  /**
   * Delete removes exactly the records with that id: what is kept and what is removed
   * together are the whole log, record for record and balance for balance.
   */
  lemma RemoveTransactionPartition(txs: seq<Transaction>, id: string, acct: string)
    ensures |RemoveTransaction(txs, id)| + |TransactionsWithId(txs, id)| == |txs|
    ensures multiset(RemoveTransaction(txs, id)) + multiset(TransactionsWithId(txs, id)) == multiset(txs)
    ensures AccountBalance(txs, acct)
         == AccountBalance(RemoveTransaction(txs, id), acct) + AccountBalance(TransactionsWithId(txs, id), acct)
  {
    RemovePartitionRecords(txs, id);
    assert |multiset(txs)| == |txs|;
    RemovePartitionBalance(txs, id, acct);
  }

  lemma RemovePartitionRecords(txs: seq<Transaction>, id: string)
    ensures multiset(RemoveTransaction(txs, id)) + multiset(TransactionsWithId(txs, id)) == multiset(txs)
  {
    FilterPartition(txs, OtherTransaction(id), SameTransaction(id));
  }

  lemma {:induction false} RemovePartitionBalance(txs: seq<Transaction>, id: string, acct: string)
    ensures AccountBalance(txs, acct)
         == AccountBalance(RemoveTransaction(txs, id), acct) + AccountBalance(TransactionsWithId(txs, id), acct)
  {
    if txs != [] {
      var x := txs[0];
      var tail := txs[1..];
      RemovePartitionBalance(tail, id, acct);
      var kept := RemoveTransaction(tail, id);
      var gone := TransactionsWithId(tail, id);
      if x.id == id {
        assert RemoveTransaction(txs, id) == kept;
        assert TransactionsWithId(txs, id) == [x] + gone;
        ConsBalance(x, gone, acct);
      } else {
        assert RemoveTransaction(txs, id) == [x] + kept;
        assert TransactionsWithId(txs, id) == gone;
        ConsBalance(x, kept, acct);
      }
    }
  }

  lemma ConsBalance(x: Transaction, rest: seq<Transaction>, acct: string)
    ensures AccountBalance([x] + rest, acct) == Delta(x, acct) + AccountBalance(rest, acct)
    ensures multiset([x] + rest) == multiset{x} + multiset(rest)
  {
    assert ([x] + rest)[0] == x && ([x] + rest)[1..] == rest;
  }

  /** `importTransactions`' update of the log: the imported records after the old ones. */
  function AppendTransactions(txs: seq<Transaction>, imported: seq<Transaction>): (r: seq<Transaction>)
    ensures |r| == |txs| + |imported|
    ensures r[..|txs|] == txs && r[|txs|..] == imported
  {
    txs + imported
  }

  /** Importing adds the imported records' balances to the old ones. */
  lemma ImportBalance(txs: seq<Transaction>, imported: seq<Transaction>, acct: string)
    ensures AccountBalance(AppendTransactions(txs, imported), acct)
         == AccountBalance(txs, acct) + AccountBalance(imported, acct)
  {
    BalanceAppend(txs, imported, acct);
  }

  // ===================================================================
  // Accounts
  // ===================================================================

  /**
   * `${prefix}${Date.now()}`: the clock-made ids, `acc_` for a new account and `cat_`
   * for a category made up when the host has no UUID source.
   */
  function ClockId(prefix: string, nowMs: nat): (r: string)
    ensures StartsWith(r, prefix)
  {
    prefix + NatToString(nowMs)
  }

  /** Ids made with one prefix at different instants are different. */
  lemma ClockIdInjective(prefix: string, a: nat, b: nat)
    requires ClockId(prefix, a) == ClockId(prefix, b)
    ensures a == b
  {
    assert ClockId(prefix, a)[|prefix|..] == NatToString(a);
    assert ClockId(prefix, b)[|prefix|..] == NatToString(b);
    NatToStringInjective(a, b);
  }

  /** `updateAccountName`'s update: only the name of the matching account changes. */
  function RenameAccount(accs: seq<Account>, id: string, name: string): (r: seq<Account>)
    ensures |r| == |accs|
    ensures forall i :: 0 <= i < |accs| ==>
              r[i].id == accs[i].id && r[i].key == accs[i].key
              && r[i].name == (if accs[i].id == id then name else accs[i].name)
  {
    if accs == [] then []
    else [if accs[0].id == id then accs[0].(name := name) else accs[0]] + RenameAccount(accs[1..], id, name)
  }

  /** The test `deleteAccount` filters by: an account with another id. */
  function OtherAccount(id: string): Account -> bool {
    (a: Account) => a.id != id
  }

  /**
   * `deleteAccount`'s update: the `filter` of the registry by `OtherAccount(id)`, so
   * every other account stays, as often as before and in its order.
   */
  function RemoveAccount(accs: seq<Account>, id: string): (r: seq<Account>)
    ensures forall a :: a in r <==> a in accs && a.id != id
    ensures forall a :: multiset(r)[a] == if a.id != id then multiset(accs)[a] else 0
    ensures |r| <= |accs|
  {
    FilterCounts(accs, OtherAccount(id));
    Filter(accs, OtherAccount(id))
  }

  /**
   * Renaming an id no account has changes nothing; removing is idempotent; and the
   * first account, the entry form's default, stays first unless it is the one removed.
   */
  lemma AccountLaws(accs: seq<Account>, id: string, name: string)
    ensures RemoveAccount(RemoveAccount(accs, id), id) == RemoveAccount(accs, id)
    ensures (forall i :: 0 <= i < |accs| ==> accs[i].id != id) ==> RenameAccount(accs, id, name) == accs
    ensures accs != [] && accs[0].id != id ==> RemoveAccount(accs, id)[0] == accs[0]
    ensures accs != [] && accs[0].id == id ==> RemoveAccount(accs, id) == RemoveAccount(accs[1..], id)
  {
    FilterIdempotent(accs, OtherAccount(id));
    var r := RenameAccount(accs, id, name);
    if forall i :: 0 <= i < |accs| ==> accs[i].id != id {
      assert forall i :: 0 <= i < |accs| ==> r[i] == accs[i];
    }
  }

  // ===================================================================
  // Categories
  // ===================================================================

  /** `Category | Omit<Category, 'id'>`, with `subCategories` possibly absent. */
  datatype CategoryInput = CategoryInput(
    id: Option<string>, name: string, kind: CategoryType, subCategories: Option<seq<string>>)

  /** Some category has this name, ignoring case, and this type. */
  predicate HasCategoryNamed(cats: seq<Category>, name: string, kind: CategoryType) {
    exists i :: 0 <= i < |cats| && SameIgnoringCase(cats[i].name, name) && cats[i].kind == kind
  }

  /** `addCategory`'s update: unchanged on a same-name same-type duplicate, else one appended. */
  function AddCategoryTo(cats: seq<Category>, c: CategoryInput, freshId: string): (r: seq<Category>)
    ensures HasCategoryNamed(cats, c.name, c.kind) ==> r == cats
    ensures !HasCategoryNamed(cats, c.name, c.kind) ==>
              r == cats + [Category(if c.id.Some? then c.id.value else freshId, c.name, c.kind,
                                    if c.subCategories.Some? then c.subCategories.value else [])]
  {
    if HasCategoryNamed(cats, c.name, c.kind) then cats
    else
      var subs := if c.subCategories.Some? then c.subCategories.value else [];
      cats + [Category(if c.id.Some? then c.id.value else freshId, c.name, c.kind, subs)]
  }

  /** No two categories of one type share a name up to case. */
  predicate NamesUnique(cats: seq<Category>) {
    forall i, j :: 0 <= i < j < |cats| && cats[i].kind == cats[j].kind ==> !SameIgnoringCase(cats[i].name, cats[j].name)
  }

  /**
   * After an add the name is present, a second add of the same input changes nothing,
   * and the registry never gets two same-type categories whose names differ only in case.
   */
  lemma AddCategoryLaws(cats: seq<Category>, c: CategoryInput, id1: string, id2: string)
    ensures HasCategoryNamed(AddCategoryTo(cats, c, id1), c.name, c.kind)
    ensures AddCategoryTo(AddCategoryTo(cats, c, id1), c, id2) == AddCategoryTo(cats, c, id1)
    ensures NamesUnique(cats) ==> NamesUnique(AddCategoryTo(cats, c, id1))
  {
    var r := AddCategoryTo(cats, c, id1);
    if !HasCategoryNamed(cats, c.name, c.kind) {
      var k := |cats|;
      assert r[k].name == c.name && r[k].kind == c.kind;
      assert SameIgnoringCase(r[k].name, c.name);
      assert HasCategoryNamed(r, c.name, c.kind);
      if NamesUnique(cats) {
        forall i, j | 0 <= i < j < |r| && r[i].kind == r[j].kind
          ensures !SameIgnoringCase(r[i].name, r[j].name)
        {
          if j == k {
            assert r[i] == cats[i] && r[j].name == c.name;
            assert cats[i].kind == c.kind;
            assert !SameIgnoringCase(cats[i].name, c.name);
          } else {
            assert r[i] == cats[i] && r[j] == cats[j];
          }
        }
      }
    }
  }

  /** `updateCategory`'s update: every category with that id becomes `c`. */
  function ReplaceCategory(cats: seq<Category>, c: Category): (r: seq<Category>)
    ensures |r| == |cats|
    ensures forall i :: 0 <= i < |cats| ==> r[i] == if cats[i].id == c.id then c else cats[i]
  {
    if cats == [] then []
    else [if cats[0].id == c.id then c else cats[0]] + ReplaceCategory(cats[1..], c)
  }

  /** The test `deleteCategory` filters the registry by: a category with another id. */
  function OtherCategory(id: string): Category -> bool {
    (c: Category) => c.id != id
  }

  /**
   * `deleteCategory`'s update of the registry: the `filter` by `OtherCategory(id)`,
   * so every other category stays, as often as before and in its order.
   */
  function RemoveCategory(cats: seq<Category>, id: string): (r: seq<Category>)
    ensures forall c :: c in r <==> c in cats && c.id != id
    ensures forall c :: multiset(r)[c] == if c.id != id then multiset(cats)[c] else 0
    ensures |r| <= |cats|
  {
    FilterCounts(cats, OtherCategory(id));
    Filter(cats, OtherCategory(id))
  }

  /** A transaction of a deleted category: no category, no sub-category, the note marked. */
  function Uncategorized(tx: Transaction): (r: Transaction)
    ensures r.categoryId.None? && r.subCategory.None?
    ensures r.id == tx.id && r.kind == tx.kind && r.amount == tx.amount && r.date == tx.date
    ensures r.accountId == tx.accountId && r.fromAccountId == tx.fromAccountId
    ensures r.toAccountId == tx.toAccountId && r.isFlagged == tx.isFlagged
    ensures tx.note == "" ==> r.note == "(Uncategorized)"
    ensures tx.note != "" ==> r.note == tx.note + " (Uncategorized)"
  {
    tx.(categoryId := None, subCategory := None,
        note := if tx.note != "" then tx.note + " (Uncategorized)" else "(Uncategorized)")
  }

  /** `deleteCategory`'s update of the log. */
  function UncategorizeAll(txs: seq<Transaction>, id: string): (r: seq<Transaction>)
    ensures |r| == |txs|
    ensures forall i :: 0 <= i < |txs| ==>
              r[i] == if txs[i].categoryId == Some(id) then Uncategorized(txs[i]) else txs[i]
  {
    if txs == [] then []
    else [if txs[0].categoryId == Some(id) then Uncategorized(txs[0]) else txs[0]]
         + UncategorizeAll(txs[1..], id)
  }

  /**
   * After the delete no transaction refers to the category, the ids stay as they
   * were, and no account balance changes.
   */
  lemma {:induction false} UncategorizeLaws(txs: seq<Transaction>, id: string, acct: string)
    ensures forall i :: 0 <= i < |txs| ==> UncategorizeAll(txs, id)[i].categoryId != Some(id)
    ensures TransactionIds(UncategorizeAll(txs, id)) == TransactionIds(txs)
    ensures AccountBalance(UncategorizeAll(txs, id), acct) == AccountBalance(txs, acct)
  {
    var r := UncategorizeAll(txs, id);
    assert TransactionIds(r) == TransactionIds(txs);
    if txs != [] {
      UncategorizeLaws(txs[1..], id, acct);
      assert r[1..] == UncategorizeAll(txs[1..], id);
      assert Delta(r[0], acct) == Delta(txs[0], acct);
    }
  }

  /** The test `deleteCategory` filters the budgets by: an entry of another category. */
  function OtherBudget(id: string): CategoryBudget -> bool {
    (b: CategoryBudget) => b.categoryId != id
  }

  /**
   * `deleteCategory`'s update of the category budgets: the `filter` by `OtherBudget(id)`,
   * so every entry of another category stays, as often as before and in its order.
   */
  function RemoveBudgets(bs: seq<CategoryBudget>, id: string): (r: seq<CategoryBudget>)
    ensures forall b :: b in r <==> b in bs && b.categoryId != id
    ensures forall b :: multiset(r)[b] == if b.categoryId != id then multiset(bs)[b] else 0
    ensures |r| <= |bs|
  {
    FilterCounts(bs, OtherBudget(id));
    Filter(bs, OtherBudget(id))
  }

  // ===================================================================
  // Category budgets
  // ===================================================================

  function BudgetCategories(bs: seq<CategoryBudget>): (r: seq<string>)
    ensures |r| == |bs|
    ensures forall i :: 0 <= i < |bs| ==> r[i] == bs[i].categoryId
  {
    if bs == [] then [] else [bs[0].categoryId] + BudgetCategories(bs[1..])
  }

  /** Every entry for `catId` gets the new amount. */
  function SetBudgetAmounts(bs: seq<CategoryBudget>, catId: string, amount: int): (r: seq<CategoryBudget>)
    ensures |r| == |bs|
    ensures forall i :: 0 <= i < |bs| ==>
              r[i] == if bs[i].categoryId == catId then CategoryBudget(catId, amount) else bs[i]
  {
    if bs == [] then []
    else [if bs[0].categoryId == catId then bs[0].(amount := amount) else bs[0]]
         + SetBudgetAmounts(bs[1..], catId, amount)
  }

  /** `updateCategoryBudget`'s update: replace the amount in place, or append one entry. */
  function UpsertBudget(bs: seq<CategoryBudget>, catId: string, amount: int): seq<CategoryBudget> {
    if catId in BudgetCategories(bs) then SetBudgetAmounts(bs, catId, amount)
    else bs + [CategoryBudget(catId, amount)]
  }

  /**
   * The upsert leaves an entry for the category, and every entry for it has the new
   * amount; the entries of other categories are exactly the ones there were.
   */
  lemma UpsertBudgetEntries(bs: seq<CategoryBudget>, catId: string, amount: int)
    ensures catId in BudgetCategories(UpsertBudget(bs, catId, amount))
    ensures forall b :: b in UpsertBudget(bs, catId, amount) && b.categoryId == catId ==> b.amount == amount
    ensures forall b: CategoryBudget :: b.categoryId != catId ==> (b in UpsertBudget(bs, catId, amount) <==> b in bs)
  {
    if catId in BudgetCategories(bs) {
      SetBudgetEntries(bs, catId, amount);
    } else {
      var r := bs + [CategoryBudget(catId, amount)];
      assert BudgetCategories(r)[|bs|] == catId;
    }
  }

  lemma SetBudgetEntries(bs: seq<CategoryBudget>, catId: string, amount: int)
    requires catId in BudgetCategories(bs)
    ensures catId in BudgetCategories(SetBudgetAmounts(bs, catId, amount))
    ensures forall b :: b in SetBudgetAmounts(bs, catId, amount) && b.categoryId == catId ==> b.amount == amount
    ensures forall b: CategoryBudget :: b.categoryId != catId ==> (b in SetBudgetAmounts(bs, catId, amount) <==> b in bs)
  {
    var r := SetBudgetAmounts(bs, catId, amount);
    assert catId in BudgetCategories(r) by {
      var i :| 0 <= i < |bs| && BudgetCategories(bs)[i] == catId;
      assert BudgetCategories(r)[i] == catId;
    }
    forall b: CategoryBudget | b.categoryId != catId ensures b in r <==> b in bs {
      SetBudgetOther(bs, catId, amount, b);
    }
  }

  lemma SetBudgetOther(bs: seq<CategoryBudget>, catId: string, amount: int, b: CategoryBudget)
    requires b.categoryId != catId
    ensures b in SetBudgetAmounts(bs, catId, amount) <==> b in bs
  {
    var r := SetBudgetAmounts(bs, catId, amount);
    if b in bs {
      var j :| 0 <= j < |bs| && bs[j] == b;
      assert r[j] == b;
    }
    if b in r {
      var j :| 0 <= j < |r| && r[j] == b;
      assert bs[j] == b;
    }
  }

  /** A second upsert of the same amount changes nothing. */
  lemma UpsertBudgetIdempotent(bs: seq<CategoryBudget>, catId: string, amount: int)
    ensures UpsertBudget(UpsertBudget(bs, catId, amount), catId, amount) == UpsertBudget(bs, catId, amount)
  {
    var r := UpsertBudget(bs, catId, amount);
    UpsertBudgetEntries(bs, catId, amount);
    var rr := SetBudgetAmounts(r, catId, amount);
    forall i | 0 <= i < |r| ensures rr[i] == r[i] {
      if r[i].categoryId == catId {
        assert r[i] in r;
      }
    }
  }

  /** One entry per category stays one entry per category: the upsert never duplicates. */
  lemma UpsertBudgetUnique(bs: seq<CategoryBudget>, catId: string, amount: int)
    requires UniqueStrings(BudgetCategories(bs))
    ensures UniqueStrings(BudgetCategories(UpsertBudget(bs, catId, amount)))
  {
    var r := UpsertBudget(bs, catId, amount);
    var ks := BudgetCategories(bs);
    var rs := BudgetCategories(r);
    if catId in ks {
      forall i | 0 <= i < |bs| ensures rs[i] == ks[i] {
      }
      assert rs == ks;
    } else {
      forall i, j | 0 <= i < j < |rs| ensures rs[i] != rs[j] {
        if j == |bs| {
          assert rs[i] == ks[i];
        } else {
          assert rs[i] == ks[i] && rs[j] == ks[j];
        }
      }
    }
  }

  // ===================================================================
  // Settings
  // ===================================================================

  function Pick<T>(o: Option<T>, d: T): T {
    if o.Some? then o.value else d
  }

  /** `{ ...prev, ...s }` */
  function MergeSettings(s: Settings, p: SettingsPatch): Settings
  {
    Settings(
      Pick(p.currency, s.currency),
      Pick(p.currencies, s.currencies),
      Pick(p.theme, s.theme),
      Pick(p.fontSize, s.fontSize),
      Pick(p.language, s.language),
      Pick(p.defaultDashboardView, s.defaultDashboardView),
      Pick(p.showBudgetOnDashboard, s.showBudgetOnDashboard),
      Pick(p.showCategoryBudgetsOnDashboard, s.showCategoryBudgetsOnDashboard),
      Pick(p.showFinancialOverviewChart, s.showFinancialOverviewChart),
      Pick(p.showAccountsOnDashboard, s.showAccountsOnDashboard),
      Pick(p.showQuickActionsOnDashboard, s.showQuickActionsOnDashboard),
      Pick(p.showFinancialHealthScore, s.showFinancialHealthScore),
      Pick(p.autoBackup, s.autoBackup),
      Pick(p.reportChartType, s.reportChartType))
  }

  /** Every field the patch carries overrides the old one, and every other field stays. */
  lemma MergeSettingsFields(s: Settings, p: SettingsPatch)
    ensures p.currency.Some? ==> MergeSettings(s, p).currency == p.currency.value
    ensures p.currency.None? ==> MergeSettings(s, p).currency == s.currency
    ensures p.currencies.Some? ==> MergeSettings(s, p).currencies == p.currencies.value
    ensures p.currencies.None? ==> MergeSettings(s, p).currencies == s.currencies
    ensures p.theme.Some? ==> MergeSettings(s, p).theme == p.theme.value
    ensures p.theme.None? ==> MergeSettings(s, p).theme == s.theme
    ensures p.fontSize.Some? ==> MergeSettings(s, p).fontSize == p.fontSize.value
    ensures p.fontSize.None? ==> MergeSettings(s, p).fontSize == s.fontSize
    ensures p.language.Some? ==> MergeSettings(s, p).language == p.language.value
    ensures p.language.None? ==> MergeSettings(s, p).language == s.language
    ensures p.defaultDashboardView.Some? ==> MergeSettings(s, p).defaultDashboardView == p.defaultDashboardView.value
    ensures p.defaultDashboardView.None? ==> MergeSettings(s, p).defaultDashboardView == s.defaultDashboardView
    ensures p.showBudgetOnDashboard.Some? ==> MergeSettings(s, p).showBudgetOnDashboard == p.showBudgetOnDashboard.value
    ensures p.showBudgetOnDashboard.None? ==> MergeSettings(s, p).showBudgetOnDashboard == s.showBudgetOnDashboard
    ensures p.showCategoryBudgetsOnDashboard.Some? ==> MergeSettings(s, p).showCategoryBudgetsOnDashboard == p.showCategoryBudgetsOnDashboard.value
    ensures p.showCategoryBudgetsOnDashboard.None? ==> MergeSettings(s, p).showCategoryBudgetsOnDashboard == s.showCategoryBudgetsOnDashboard
    ensures p.showFinancialOverviewChart.Some? ==> MergeSettings(s, p).showFinancialOverviewChart == p.showFinancialOverviewChart.value
    ensures p.showFinancialOverviewChart.None? ==> MergeSettings(s, p).showFinancialOverviewChart == s.showFinancialOverviewChart
    ensures p.showAccountsOnDashboard.Some? ==> MergeSettings(s, p).showAccountsOnDashboard == p.showAccountsOnDashboard.value
    ensures p.showAccountsOnDashboard.None? ==> MergeSettings(s, p).showAccountsOnDashboard == s.showAccountsOnDashboard
    ensures p.showQuickActionsOnDashboard.Some? ==> MergeSettings(s, p).showQuickActionsOnDashboard == p.showQuickActionsOnDashboard.value
    ensures p.showQuickActionsOnDashboard.None? ==> MergeSettings(s, p).showQuickActionsOnDashboard == s.showQuickActionsOnDashboard
    ensures p.showFinancialHealthScore.Some? ==> MergeSettings(s, p).showFinancialHealthScore == p.showFinancialHealthScore.value
    ensures p.showFinancialHealthScore.None? ==> MergeSettings(s, p).showFinancialHealthScore == s.showFinancialHealthScore
    ensures p.autoBackup.Some? ==> MergeSettings(s, p).autoBackup == p.autoBackup.value
    ensures p.autoBackup.None? ==> MergeSettings(s, p).autoBackup == s.autoBackup
    ensures p.reportChartType.Some? ==> MergeSettings(s, p).reportChartType == p.reportChartType.value
    ensures p.reportChartType.None? ==> MergeSettings(s, p).reportChartType == s.reportChartType
  {
  }

  function Later<T>(a: Option<T>, b: Option<T>): Option<T> {
    if b.Some? then b else a
  }

  /** The patch that does what `p` and then `q` do. */
  function ComposePatches(p: SettingsPatch, q: SettingsPatch): SettingsPatch {
    SettingsPatch(
      Later(p.currency, q.currency),
      Later(p.currencies, q.currencies),
      Later(p.theme, q.theme),
      Later(p.fontSize, q.fontSize),
      Later(p.language, q.language),
      Later(p.defaultDashboardView, q.defaultDashboardView),
      Later(p.showBudgetOnDashboard, q.showBudgetOnDashboard),
      Later(p.showCategoryBudgetsOnDashboard, q.showCategoryBudgetsOnDashboard),
      Later(p.showFinancialOverviewChart, q.showFinancialOverviewChart),
      Later(p.showAccountsOnDashboard, q.showAccountsOnDashboard),
      Later(p.showQuickActionsOnDashboard, q.showQuickActionsOnDashboard),
      Later(p.showFinancialHealthScore, q.showFinancialHealthScore),
      Later(p.autoBackup, q.autoBackup),
      Later(p.reportChartType, q.reportChartType))
  }

  const EmptyPatch := SettingsPatch(None, None, None, None, None, None, None, None, None, None, None, None, None, None)

  /** The patch that sets every field to the one in `s`. */
  function FullPatch(s: Settings): SettingsPatch {
    SettingsPatch(
      Some(s.currency), Some(s.currencies), Some(s.theme), Some(s.fontSize), Some(s.language),
      Some(s.defaultDashboardView), Some(s.showBudgetOnDashboard), Some(s.showCategoryBudgetsOnDashboard),
      Some(s.showFinancialOverviewChart), Some(s.showAccountsOnDashboard), Some(s.showQuickActionsOnDashboard),
      Some(s.showFinancialHealthScore), Some(s.autoBackup), Some(s.reportChartType))
  }

  /** An empty patch keeps the settings and a full one replaces them. */
  lemma MergeSettingsIdentity(s: Settings, t: Settings)
    ensures MergeSettings(s, EmptyPatch) == s
    ensures MergeSettings(s, FullPatch(t)) == t
  {
  }

  /** Two updates in a row are one update with the composed patch. */
  lemma MergeSettingsCompose(s: Settings, p: SettingsPatch, q: SettingsPatch)
    ensures MergeSettings(MergeSettings(s, p), q) == MergeSettings(s, ComposePatches(p, q))
  {
  }

  // ===================================================================
  // Translation
  // ===================================================================

  /** The language tables; the English one is always there. */
  type Tables = m: map<string, map<string, string>> | "en" in m witness map["en" := map[]]

  /** `dict[key]`, when the key is present. */
  function Entry(dict: map<string, string>, key: string): Option<string> {
    if key in dict then Some(dict[key]) else None
  }

  /**
   * `t(key)`: the entry of the current language's table (English when there is no
   * table for it), else the English entry, else the key itself.
   */
  function Translate(tables: Tables, lang: string, key: string): (r: string)
    ensures Truthy(Entry(Dictionary(tables, lang), key)) ==> r == Dictionary(tables, lang)[key]
    ensures (!Truthy(Entry(Dictionary(tables, lang), key)) && Truthy(Entry(tables["en"], key)))
              ==> r == tables["en"][key]
    ensures (!Truthy(Entry(Dictionary(tables, lang), key)) && !Truthy(Entry(tables["en"], key)))
              ==> r == key
    ensures key != "" ==> r != ""
  {
    OrElse(Entry(Dictionary(tables, lang), key), OrElse(Entry(tables["en"], key), key))
  }

  /** `TRANSLATIONS[lang] || TRANSLATIONS['en']` */
  function Dictionary(tables: Tables, lang: string): map<string, string> {
    if lang in tables then tables[lang] else tables["en"]
  }

  /** A language without a table reads as English; English falls back only to the key. */
  lemma TranslateFallback(tables: Tables, lang: string, key: string)
    ensures lang !in tables ==> Translate(tables, lang, key) == Translate(tables, "en", key)
    ensures Translate(tables, "en", key) == OrElse(Entry(tables["en"], key), key)
  {
  }

  // ===================================================================
  // The store
  // ===================================================================

  class Store {
    var transactions: seq<Transaction>
    var accounts: seq<Account>
    var categories: seq<Category>
    var budget: int
    var categoryBudgets: seq<CategoryBudget>
    var settings: Settings
    const translations: Tables

    /** The state loaded at start-up (stored values, or the defaults). */
    constructor(txs: seq<Transaction>, accs: seq<Account>, cats: seq<Category>, budget0: int,
                bs: seq<CategoryBudget>, s: Settings, tables: Tables)
      ensures transactions == txs && accounts == accs && categories == cats
      ensures budget == budget0 && categoryBudgets == bs && settings == s
      ensures translations == tables
    {
      transactions := txs;
      accounts := accs;
      categories := cats;
      budget := budget0;
      categoryBudgets := bs;
      settings := s;
      translations := tables;
    }

    /** `getAccountBalance` */
    function Balance(id: string): int
      reads this
    {
      AccountBalance(transactions, id)
    }

    /** `t` */
    function T(key: string): string
      reads this
    {
      Translate(translations, settings.language, key)
    }

    /** `uuid` stands for `crypto.randomUUID()`. */
    method AddTransaction(data: Transaction, uuid: string)
      modifies this`transactions
      ensures transactions == PrependTransaction(old(transactions), data, uuid)
      ensures forall acct :: Balance(acct) == Delta(data, acct) + old(Balance(acct))
    {
      transactions := PrependTransaction(transactions, data, uuid);
      forall acct ensures Balance(acct) == Delta(data, acct) + old(Balance(acct)) {
        PrependBalance(old(transactions), data, uuid, acct);
      }
    }

    method UpdateTransaction(data: Transaction)
      modifies this`transactions
      ensures transactions == ReplaceTransaction(old(transactions), data)
    {
      transactions := ReplaceTransaction(transactions, data);
    }

    method DeleteTransaction(id: string) returns (ok: bool)
      modifies this`transactions
      ensures transactions == RemoveTransaction(old(transactions), id)
      ensures ok
    {
      transactions := RemoveTransaction(transactions, id);
      ok := true;
    }

    method ImportTransactions(imported: seq<Transaction>, updatedCategories: seq<Category>)
      modifies this`transactions, this`categories
      ensures categories == updatedCategories
      ensures transactions == AppendTransactions(old(transactions), imported)
    {
      categories := updatedCategories;
      transactions := AppendTransactions(transactions, imported);
    }

    /** `nowMs` stands for `Date.now()`. */
    method AddAccount(key: AccountKey, name: string, nowMs: nat)
      modifies this`accounts
      ensures accounts == old(accounts) + [Account(ClockId("acc_", nowMs), key, name)]
    {
      accounts := accounts + [Account(ClockId("acc_", nowMs), key, name)];
    }

    method UpdateAccountName(id: string, name: string)
      modifies this`accounts
      ensures accounts == RenameAccount(old(accounts), id, name)
    {
      accounts := RenameAccount(accounts, id, name);
    }

    /** The log is left as it is: the balances of the remaining accounts do not change. */
    method DeleteAccount(id: string)
      modifies this`accounts
      ensures accounts == RemoveAccount(old(accounts), id)
    {
      accounts := RemoveAccount(accounts, id);
    }

    /** `freshId` stands for the UUID (or `ClockId("cat_", now)`) used when `c` has no id. */
    method AddCategory(c: CategoryInput, freshId: string)
      modifies this`categories
      ensures categories == AddCategoryTo(old(categories), c, freshId)
      ensures old(NamesUnique(categories)) ==> NamesUnique(categories)
    {
      AddCategoryLaws(categories, c, freshId, freshId);
      categories := AddCategoryTo(categories, c, freshId);
    }

    method UpdateCategory(c: Category)
      modifies this`categories
      ensures categories == ReplaceCategory(old(categories), c)
    {
      categories := ReplaceCategory(categories, c);
    }

    method DeleteCategory(id: string)
      modifies this`categories, this`transactions, this`categoryBudgets
      ensures categories == RemoveCategory(old(categories), id)
      ensures transactions == UncategorizeAll(old(transactions), id)
      ensures categoryBudgets == RemoveBudgets(old(categoryBudgets), id)
      ensures forall acct :: Balance(acct) == old(Balance(acct))
    {
      categories := RemoveCategory(categories, id);
      transactions := UncategorizeAll(transactions, id);
      categoryBudgets := RemoveBudgets(categoryBudgets, id);
      forall acct ensures Balance(acct) == old(Balance(acct)) {
        UncategorizeLaws(old(transactions), id, acct);
      }
    }

    method UpdateBudget(amount: int)
      modifies this`budget
      ensures budget == amount
    {
      budget := amount;
    }

    method UpdateCategoryBudget(catId: string, amount: int)
      modifies this`categoryBudgets
      ensures categoryBudgets == UpsertBudget(old(categoryBudgets), catId, amount)
      ensures old(UniqueStrings(BudgetCategories(categoryBudgets))) ==> UniqueStrings(BudgetCategories(categoryBudgets))
    {
      if UniqueStrings(BudgetCategories(categoryBudgets)) {
        UpsertBudgetUnique(categoryBudgets, catId, amount);
      }
      categoryBudgets := UpsertBudget(categoryBudgets, catId, amount);
    }

    method UpdateSettings(p: SettingsPatch)
      modifies this`settings
      ensures settings == MergeSettings(old(settings), p)
    {
      settings := MergeSettings(settings, p);
    }
  }
}
