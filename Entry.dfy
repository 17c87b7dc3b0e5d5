/**
 * The transaction entry form: its state, the handlers that change it, and the
 * submit path — validation, resolving or creating the category and the
 * sub-category, building the record and saving it to the store.
 *
 * The form's `categories` is the store's registry at the moment of submit; the
 * clock (`Date.now()`) and the UUID of a new record are parameters.
 */
module TransactionEntry {
  import opened Types
  import opened Text
  import opened Calendar
  import opened LocalDates
  import opened AppContext

  // ===================================================================
  // String.prototype.trim
  // ===================================================================

  /** The white space and line terminators `trim` removes. */
  predicate IsSpace(c: char) {
    var n := c as int;
    n == 0x20 || 0x09 <= n <= 0x0D || n == 0xA0 || n == 0x1680 || 0x2000 <= n <= 0x200A
    || n == 0x2028 || n == 0x2029 || n == 0x202F || n == 0x205F || n == 0x3000 || n == 0xFEFF
  }

  function LeadingSpaces(s: string): (n: nat)
    ensures n <= |s|
    ensures forall k :: 0 <= k < n ==> IsSpace(s[k])
    ensures n < |s| ==> !IsSpace(s[n])
  {
    if s == [] || !IsSpace(s[0]) then 0 else 1 + LeadingSpaces(s[1..])
  }

  function TrailingSpaces(s: string): (n: nat)
    ensures n <= |s|
    ensures forall k :: |s| - n <= k < |s| ==> IsSpace(s[k])
    ensures n < |s| ==> !IsSpace(s[|s| - 1 - n])
  {
    if s == [] || !IsSpace(s[|s| - 1]) then 0 else 1 + TrailingSpaces(s[..|s| - 1])
  }

  /**
   * `s.trim()`: the part of `s` left once the white space at both ends is cut;
   * empty exactly when `s` is all white space, and never starting or ending with it.
   */
  function Trim(s: string): (r: string)
    ensures |r| <= |s|
    ensures r == [] <==> forall k :: 0 <= k < |s| ==> IsSpace(s[k])
    ensures r != [] ==> !IsSpace(r[0]) && !IsSpace(r[|r| - 1])
    ensures exists i :: OccursAt(s, r, i)
              && (forall k :: 0 <= k < i ==> IsSpace(s[k]))
              && (forall k :: i + |r| <= k < |s| ==> IsSpace(s[k]))
  {
    var a := LeadingSpaces(s);
    var b := TrailingSpaces(s[a..]);
    TrimShape(s, a, b);
    s[a..|s| - b]
  }

  lemma TrimShape(s: string, a: nat, b: nat)
    requires a == LeadingSpaces(s) && b == TrailingSpaces(s[a..])
    ensures a <= |s| - b
    ensures OccursAt(s, s[a..|s| - b], a)
    ensures var r := s[a..|s| - b];
            && (r == [] <==> forall k :: 0 <= k < |s| ==> IsSpace(s[k]))
            && (r != [] ==> !IsSpace(r[0]) && !IsSpace(r[|r| - 1]))
            && (forall k :: 0 <= k < a ==> IsSpace(s[k]))
            && (forall k :: a + |r| <= k < |s| ==> IsSpace(s[k]))
  {
    var rest := s[a..];
    var r := s[a..|s| - b];
    assert r == rest[..|rest| - b];
    if r == [] {
      SpacesThenSpaces(s, a);
    } else {
      assert r[|r| - 1] == rest[|rest| - 1 - b];
    }
    assert forall k :: a + |r| <= k < |s| ==> s[k] == rest[k - a];
  }

  /** Text that is white space up to `a` and from `a` on is white space throughout. */
  lemma SpacesThenSpaces(s: string, a: nat)
    requires a <= |s|
    requires forall k :: 0 <= k < a ==> IsSpace(s[k])
    requires forall k :: 0 <= k < |s[a..]| ==> IsSpace(s[a..][k])
    ensures forall k :: 0 <= k < |s| ==> IsSpace(s[k])
  {
    forall k | a <= k < |s| ensures IsSpace(s[k]) {
      assert s[a..][k - a] == s[k];
    }
  }

  /** Trimming twice is trimming once. */
  lemma TrimIdempotent(s: string)
    ensures Trim(Trim(s)) == Trim(s)
  {
    var r := Trim(s);
    if r != [] {
      assert LeadingSpaces(r) == 0;
      assert r[0..] == r;
      assert TrailingSpaces(r) == 0;
    }
  }

  /** Text with no white space at either end is its own trim. */
  lemma TrimOfTrimmed(s: string)
    requires s != [] ==> !IsSpace(s[0]) && !IsSpace(s[|s| - 1])
    ensures Trim(s) == s
  {
    if s != [] {
      assert LeadingSpaces(s) == 0;
      assert s[0..] == s;
      assert TrailingSpaces(s) == 0;
    }
  }

  // ===================================================================
  // The form
  // ===================================================================

  /**
   * The modal's state. `amount` and `date` are the input elements' text; the ids
   * are `''` when nothing is chosen; the last four fields are the inline
   * category and sub-category creation state.
   */
  datatype Form = Form(
    kind: TransactionType,
    amount: string,
    date: string,
    note: string,
    accountId: string,
    fromAccountId: string,
    toAccountId: string,
    categoryId: string,
    subCategory: string,
    isCreatingCategory: bool,
    newCategoryName: string,
    isCreatingSub: bool,
    newSubName: string)

  /** The value the category and sub-category selects use for "create new". */
  const NewOption := "__NEW__"

  /** `accounts[i]?.id || fallback` */
  function AccountIdOr(accs: seq<Account>, i: nat, fallback: string): (r: string)
    ensures i < |accs| && accs[i].id != "" ==> r == accs[i].id
    ensures !(i < |accs| && accs[i].id != "") ==> r == fallback
  {
    if i < |accs| && accs[i].id != "" then accs[i].id else fallback
  }

  /**
   * The state on opening for a new entry: the given type (else expense), no amount,
   * today's local date, the first account as source and the second (else the
   * first) as destination, and nothing selected or being created.
   */
  function NewForm(initialType: Option<TransactionType>, accs: seq<Account>, now: int): (f: Form)
    ensures f.kind == (if initialType.Some? then initialType.value else Expense)
    ensures f.amount == "" && f.note == "" && f.categoryId == "" && f.subCategory == ""
    ensures f.date == LocalYmd(now)
    ensures f.accountId == f.fromAccountId
    ensures |accs| >= 2 && accs[1].id != "" ==> f.toAccountId == accs[1].id
    ensures |accs| >= 1 && accs[0].id != "" ==> f.fromAccountId == accs[0].id
    ensures |accs| == 1 ==> f.toAccountId == f.fromAccountId
    ensures !f.isCreatingCategory && !f.isCreatingSub
  {
    var first := AccountIdOr(accs, 0, "");
    Form(if initialType.Some? then initialType.value else Expense, "", LocalYmd(now), "",
         first, first, AccountIdOr(accs, 1, first), "", "", false, "", false, "")
  }

  /** The state on opening to edit `tx`: its fields as text, absent references as `''`. */
  function EditForm(tx: Transaction): (f: Form)
    ensures f.kind == tx.kind && f.note == tx.note
    ensures ParseAmount(f.amount) == Some(tx.amount)
    ensures FullYear(tx.date) >= 100 ==> ParseDateInput(f.date) == Some(Midnight(tx.date))
    ensures Truthy(tx.categoryId) ==> f.categoryId == tx.categoryId.value
    ensures !f.isCreatingCategory && !f.isCreatingSub
  {
    AmountRoundTrip(tx.amount);
    if FullYear(tx.date) >= 100 then DateInputRoundTrip(tx.date); EditFormOf(tx)
    else EditFormOf(tx)
  }

  function EditFormOf(tx: Transaction): Form {
    Form(tx.kind, AmountString(tx.amount), LocalYmd(tx.date), tx.note,
         OrElse(tx.accountId, ""), OrElse(tx.fromAccountId, ""), OrElse(tx.toAccountId, ""),
         OrElse(tx.categoryId, ""), OrElse(tx.subCategory, ""), false, "", false, "")
  }

  /** The type buttons: a new type clears the category, the sub-category and both creation modes. */
  function SwitchType(f: Form, k: TransactionType): (g: Form)
    ensures g.kind == k && g.categoryId == "" && g.subCategory == ""
    ensures !g.isCreatingCategory && !g.isCreatingSub
    ensures g.(kind := f.kind, categoryId := f.categoryId, subCategory := f.subCategory,
               isCreatingCategory := f.isCreatingCategory, isCreatingSub := f.isCreatingSub) == f
  {
    f.(kind := k, categoryId := "", subCategory := "", isCreatingCategory := false, isCreatingSub := false)
  }

  /** The category select: "create new" opens an empty name field; any choice clears the sub-category. */
  function SelectCategory(f: Form, val: string): (g: Form)
    ensures g.subCategory == ""
    ensures val == NewOption ==> g.isCreatingCategory && g.categoryId == "" && g.newCategoryName == ""
    ensures val != NewOption ==> g == f.(categoryId := val, subCategory := "")
  {
    if val == NewOption then f.(isCreatingCategory := true, categoryId := "", subCategory := "", newCategoryName := "")
    else f.(categoryId := val, subCategory := "")
  }

  /** The sub-category select: "create new" opens an empty name field. */
  function SelectSubCategory(f: Form, val: string): (g: Form)
    ensures val == NewOption ==> g.isCreatingSub && g.subCategory == "" && g.newSubName == ""
    ensures val != NewOption ==> g == f.(subCategory := val)
    ensures g.categoryId == f.categoryId && g.isCreatingCategory == f.isCreatingCategory
  {
    if val == NewOption then f.(isCreatingSub := true, subCategory := "", newSubName := "")
    else f.(subCategory := val)
  }

  /** `availableSubCategories`: those of the selected category, else none. */
  function AvailableSubCategories(cats: seq<Category>, f: Form): (subs: seq<string>)
    ensures (exists c :: c in cats && c.id == f.categoryId && c.subCategories == subs)
            || (subs == [] && forall c :: c in cats ==> c.id != f.categoryId)
  {
    match FindCategory(cats, Some(f.categoryId))
    case Some(c) => c.subCategories
    case None => []
  }

  // ===================================================================
  // Submit
  // ===================================================================

  datatype Failure =
    | BadAmount          // "Enter valid amount."
    | NoCategory         // "Please select a category."
    | BlankCategoryName  // "Category name cannot be empty."
    | InvalidDate        // `toISOString` throws on an Invalid Date

  /** What a submit leads to: nothing saved, or the record to save and the category registry after it. */
  datatype Outcome = Refused(why: Failure) | Accepted(data: Transaction, registry: seq<Category>)

  /** The largest time value a Date holds (plus or minus 100 000 000 days from the epoch). */
  const MaxTime := 8_640_000_000_000_000

  predicate InTimeRange(t: int) {
    -MaxTime <= t <= MaxTime
  }

  /** The amount text is given and reads as a positive number. */
  predicate AmountOk(f: Form) {
    f.amount != "" && ParseAmount(f.amount).Some? && ParseAmount(f.amount).value > 0
  }

  /** The first category of the given type whose name matches `name` ignoring case. */
  function FindNamed(cats: seq<Category>, name: string, kind: CategoryType): (r: Option<Category>)
    ensures r.None? <==> !HasCategoryNamed(cats, name, kind)
    ensures r.Some? ==> r.value in cats && SameIgnoringCase(r.value.name, name) && r.value.kind == kind
  {
    if cats == [] then None
    else if SameIgnoringCase(cats[0].name, name) && cats[0].kind == kind then
      assert SameIgnoringCase(cats[0].name, name) && cats[0].kind == kind;
      Some(cats[0])
    else
      var r := FindNamed(cats[1..], name, kind);
      assert HasCategoryNamed(cats[1..], name, kind) ==> HasCategoryNamed(cats, name, kind) by {
        if HasCategoryNamed(cats[1..], name, kind) {
          var i :| 0 <= i < |cats[1..]| && SameIgnoringCase(cats[1..][i].name, name) && cats[1..][i].kind == kind;
          assert cats[i + 1] == cats[1..][i];
        }
      }
      assert HasCategoryNamed(cats, name, kind) ==> HasCategoryNamed(cats[1..], name, kind) by {
        if HasCategoryNamed(cats, name, kind) {
          var i :| 0 <= i < |cats| && SameIgnoringCase(cats[i].name, name) && cats[i].kind == kind;
          assert i != 0;
          assert cats[1..][i - 1] == cats[i];
        }
      }
      r
  }

  /** The category a submit uses, and whether it is a new one. */
  datatype Choice = Choice(id: string, isNew: bool)

  /**
   * The selected category; or, when creating, an existing same-type category with
   * that name ignoring case; or else a new id from the clock.
   */
  function ResolveCategory(cats: seq<Category>, f: Form, kind: CategoryType, nowMs: nat): (c: Choice)
    ensures !f.isCreatingCategory ==> c == Choice(f.categoryId, false)
    ensures f.isCreatingCategory && !c.isNew ==>
              exists x :: x in cats && x.id == c.id && SameIgnoringCase(x.name, Trim(f.newCategoryName)) && x.kind == kind
    ensures c.isNew <==> f.isCreatingCategory && !HasCategoryNamed(cats, Trim(f.newCategoryName), kind)
    ensures c.isNew ==> c.id == ClockId("cat_", nowMs)
  {
    if !f.isCreatingCategory then Choice(f.categoryId, false)
    else
      match FindNamed(cats, Trim(f.newCategoryName), kind)
      case Some(x) => Choice(x.id, false)
      case None => Choice(ClockId("cat_", nowMs), true)
  }

  /** The sub-categories a new category starts with: the new sub-category name, when one is being created. */
  function InitialSubs(f: Form): (subs: seq<string>)
    ensures |subs| <= 1
    ensures subs == [Trim(f.newSubName)] <==> f.isCreatingSub && Trim(f.newSubName) != ""
  {
    if f.isCreatingSub && Trim(f.newSubName) != "" then [Trim(f.newSubName)] else []
  }

  /** The list holds `name` ignoring case. */
  predicate HasSubNamed(subs: seq<string>, name: string) {
    exists i :: 0 <= i < |subs| && SameIgnoringCase(subs[i], name)
  }

  /** The sub-category the record gets: the trimmed new name when creating one, else the selection. */
  function FinalSub(f: Form): (s: string)
    ensures f.isCreatingSub ==> s == Trim(f.newSubName)
    ensures !f.isCreatingSub ==> s == f.subCategory
  {
    var t := Trim(f.newSubName);
    if f.isCreatingSub then (if t != "" then t else "") else f.subCategory
  }

  /** The category registry after the submit's `addCategory` or `updateCategory`, if either runs. */
  function RegistryAfter(cats: seq<Category>, f: Form, kind: CategoryType, c: Choice): seq<Category> {
    var t := Trim(f.newSubName);
    if c.isNew then
      AddCategoryTo(cats, CategoryInput(Some(c.id), Trim(f.newCategoryName), kind, Some(InitialSubs(f))), c.id)
    else if f.isCreatingSub && t != "" then
      match FindCategory(cats, Some(c.id))
      case Some(cat) =>
        if HasSubNamed(cat.subCategories, t) then cats
        else ReplaceCategory(cats, cat.(subCategories := cat.subCategories + [t]))
      case None => cats
    else cats
  }

  /** `{ type, amount, date, note }`: the fields every record of the form has. */
  function BaseData(f: Form, amount: int, date: int): Transaction {
    Transaction("", f.kind, amount, date, f.note, None, None, None, None, None, None)
  }

  /** The record a non-transfer saves, given the category it resolved to. */
  function CategorizedData(f: Form, amount: int, date: int, c: Choice): Transaction {
    BaseData(f, amount, date).(accountId := Some(f.accountId), categoryId := Some(c.id), subCategory := Some(FinalSub(f)))
  }

  /**
   * `handleSubmit` up to the save: the first failing check in the source's order,
   * else the record and the registry as the category logic leaves it.
   */
  function Prepare(f: Form, cats: seq<Category>, nowMs: nat): (r: Outcome)
    ensures !AmountOk(f) ==> r == Refused(BadAmount)
    ensures r.Accepted? ==> AmountOk(f) && ParseAmount(f.amount) == Some(r.data.amount) && r.data.amount > 0
    ensures r.Accepted? ==> ParseDateInput(f.date) == Some(r.data.date) && InTimeRange(r.data.date)
    ensures r.Accepted? ==> WellShaped(r.data) && r.data.kind == f.kind && r.data.note == f.note
    ensures r.Accepted? ==> r.data.isFlagged.None?
    ensures r.Accepted? && f.kind != Transfer ==>
              if f.isCreatingCategory then Trim(f.newCategoryName) != "" else f.categoryId != ""
    ensures r.Accepted? && f.kind == Transfer ==>
              r.registry == cats && r.data.fromAccountId == Some(f.fromAccountId) && r.data.toAccountId == Some(f.toAccountId)
    ensures r.Accepted? && f.kind != Transfer ==> r.data.accountId == Some(f.accountId)
    ensures r.Refused? && r.why == InvalidDate ==>
              AmountOk(f) && match ParseDateInput(f.date) case None => true case Some(t) => !InTimeRange(t)
  {
    var amt := ParseAmount(f.amount);
    if f.amount == "" || amt.None? || amt.value <= 0 then Refused(BadAmount)
    else if f.kind != Transfer && !f.isCreatingCategory && f.categoryId == "" then Refused(NoCategory)
    else if f.kind != Transfer && f.isCreatingCategory && Trim(f.newCategoryName) == "" then Refused(BlankCategoryName)
    else
      match ParseDateInput(f.date)
      case None => Refused(InvalidDate)
      case Some(t) =>
        if !InTimeRange(t) then Refused(InvalidDate)
        else if f.kind == Transfer then
          Accepted(BaseData(f, amt.value, t).(fromAccountId := Some(f.fromAccountId), toAccountId := Some(f.toAccountId)), cats)
        else
          var kind := CategoryTypeOf(f.kind).value;
          var c := ResolveCategory(cats, f, kind, nowMs);
          Accepted(CategorizedData(f, amt.value, t, c), RegistryAfter(cats, f, kind, c))
  }

  /** The log after the save: an edit replaces the record with the edited id, otherwise a new record goes in front. */
  function SaveInto(txs: seq<Transaction>, data: Transaction, edit: Option<Transaction>, uuid: string): seq<Transaction> {
    if edit.Some? then ReplaceTransaction(txs, data.(id := edit.value.id))
    else PrependTransaction(txs, data, uuid)
  }

  /**
   * `handleSubmit`. On a failure nothing in the store changes; otherwise the
   * category registry and the log are as `Prepare` and `SaveInto` say.
   */
  method Submit(store: Store, f: Form, edit: Option<Transaction>, nowMs: nat, uuid: string) returns (r: Option<Failure>)
    modifies store`categories, store`transactions
    ensures Prepare(f, old(store.categories), nowMs).Refused? ==>
              r == Some(Prepare(f, old(store.categories), nowMs).why)
              && store.categories == old(store.categories) && store.transactions == old(store.transactions)
    ensures Prepare(f, old(store.categories), nowMs).Accepted? ==>
              r.None?
              && store.categories == Prepare(f, old(store.categories), nowMs).registry
              && store.transactions == SaveInto(old(store.transactions), Prepare(f, old(store.categories), nowMs).data, edit, uuid)
  {
    var cats := store.categories;
    ghost var o := Prepare(f, cats, nowMs);
    // 1. validation
    var amt := ParseAmount(f.amount);
    if f.amount == "" || amt.None? || amt.value <= 0 {
      return Some(BadAmount);
    }
    if f.kind != Transfer {
      if !f.isCreatingCategory && f.categoryId == "" {
        return Some(NoCategory);
      }
      if f.isCreatingCategory && Trim(f.newCategoryName) == "" {
        return Some(BlankCategoryName);
      }
    }
    // 2. the date
    var date := ParseDateInput(f.date);
    if date.None? || !InTimeRange(date.value) {
      return Some(InvalidDate);
    }
    assert o.Accepted?;
    var data := BaseData(f, amt.value, date.value);
    if f.kind == Transfer {
      data := data.(fromAccountId := Some(f.fromAccountId), toAccountId := Some(f.toAccountId));
    } else {
      data := data.(accountId := Some(f.accountId));
      // the category
      var kind := CategoryTypeOf(f.kind).value;
      var c := ResolveCategory(cats, f, kind, nowMs);
      var trimmedSub := Trim(f.newSubName);
      if c.isNew {
        store.AddCategory(CategoryInput(Some(c.id), Trim(f.newCategoryName), kind, Some(InitialSubs(f))), c.id);
      }
      data := data.(categoryId := Some(c.id));
      // the sub-category
      var finalSub := f.subCategory;
      if f.isCreatingSub {
        if trimmedSub != "" {
          finalSub := trimmedSub;
          if !c.isNew {
            var cat := FindCategory(cats, Some(c.id));
            if cat.Some? && !HasSubNamed(cat.value.subCategories, trimmedSub) {
              store.UpdateCategory(cat.value.(subCategories := cat.value.subCategories + [trimmedSub]));
            }
          }
        } else {
          finalSub := "";
        }
      }
      data := data.(subCategory := Some(finalSub));
      assert data == CategorizedData(f, amt.value, date.value, c);
      assert o.registry == RegistryAfter(cats, f, kind, c);
      assert store.categories == o.registry;
    }
    assert data == o.data;
    // 3. the save
    if edit.Some? {
      store.UpdateTransaction(data.(id := edit.value.id));
    } else {
      store.AddTransaction(data, uuid);
    }
    r := None;
  }

  // ===================================================================
  // Properties of a submit
  // ===================================================================

  /** Category ids name one category each. */
  predicate IdsUnique(cats: seq<Category>) {
    forall i, j :: 0 <= i < |cats| && 0 <= j < |cats| && cats[i].id == cats[j].id ==> i == j
  }

  /** With unique ids, looking up a member's id finds that member. */
  lemma {:induction false} FindCategoryOfMember(cats: seq<Category>, x: Category)
    requires IdsUnique(cats) && x in cats
    ensures FindCategory(cats, Some(x.id)) == Some(x)
  {
    var i :| 0 <= i < |cats| && cats[i] == x;
    if i > 0 {
      assert cats[0].id != x.id;
      assert cats[1..][i - 1] == x;
      assert IdsUnique(cats[1..]) by {
        forall a, b | 0 <= a < |cats[1..]| && 0 <= b < |cats[1..]| && cats[1..][a].id == cats[1..][b].id
          ensures a == b
        {
          assert cats[a + 1] == cats[1..][a] && cats[b + 1] == cats[1..][b];
        }
      }
      FindCategoryOfMember(cats[1..], x);
    }
  }

  /** Replacing a category by a copy with the same name and type keeps same-type names distinct. */
  lemma ReplaceKeepsNamesUnique(cats: seq<Category>, c: Category)
    requires NamesUnique(cats) && IdsUnique(cats)
    requires exists x :: x in cats && x.id == c.id && x.name == c.name && x.kind == c.kind
    ensures NamesUnique(ReplaceCategory(cats, c))
  {
    var x :| x in cats && x.id == c.id && x.name == c.name && x.kind == c.kind;
    var r := ReplaceCategory(cats, c);
    forall i, j | 0 <= i < j < |r| && r[i].kind == r[j].kind
      ensures !SameIgnoringCase(r[i].name, r[j].name)
    {
      assert r[i].name == cats[i].name && r[i].kind == cats[i].kind;
      assert r[j].name == cats[j].name && r[j].kind == cats[j].kind by {
        if cats[j].id == c.id {
          var k :| 0 <= k < |cats| && cats[k] == x;
          assert k == j;
        }
      }
    }
  }

  /** Sub-category lists after the update: the updated category gains the name, every other one is unchanged. */
  lemma ReplaceFinds(cats: seq<Category>, cat: Category, t: string)
    requires IdsUnique(cats) && cat in cats
    ensures var r := ReplaceCategory(cats, cat.(subCategories := cat.subCategories + [t]));
            |r| == |cats|
            && (forall i :: 0 <= i < |cats| ==> r[i].id == cats[i].id && r[i].name == cats[i].name && r[i].kind == cats[i].kind)
            && FindCategory(r, Some(cat.id)) == Some(cat.(subCategories := cat.subCategories + [t]))
  {
    var c := cat.(subCategories := cat.subCategories + [t]);
    var r := ReplaceCategory(cats, c);
    var k :| 0 <= k < |cats| && cats[k] == cat;
    forall i | 0 <= i < |cats| ensures r[i].id == cats[i].id && r[i].name == cats[i].name && r[i].kind == cats[i].kind {
      if cats[i].id == c.id {
        assert i == k;
      }
    }
    assert IdsUnique(r) by {
      forall a, b | 0 <= a < |r| && 0 <= b < |r| && r[a].id == r[b].id ensures a == b {
        assert cats[a].id == cats[b].id;
      }
    }
    assert r[k] == c;
    FindCategoryOfMember(r, c);
  }

  /** A saved non-transfer carries the resolved category and the final sub-category; the registry is `RegistryAfter`. */
  lemma PrepareCategorized(f: Form, cats: seq<Category>, nowMs: nat)
    requires Prepare(f, cats, nowMs).Accepted? && f.kind != Transfer
    ensures var r := Prepare(f, cats, nowMs);
            var kind := CategoryTypeOf(f.kind).value;
            var c := ResolveCategory(cats, f, kind, nowMs);
            r.data.categoryId == Some(c.id) && r.data.subCategory == Some(FinalSub(f))
            && r.registry == RegistryAfter(cats, f, kind, c)
  {
  }

  /**
   * A saved non-transfer names the category it resolved to: the selected one, or,
   * when creating, one of the registry with that name ignoring case and the
   * record's type — an existing one if there was one, else a new category that
   * carries the new sub-category name when one was given. Same-type names
   * stay distinct and no category is lost.
   */
  lemma CategoryResolution(f: Form, cats: seq<Category>, nowMs: nat)
    requires Prepare(f, cats, nowMs).Accepted? && f.kind != Transfer
    requires IdsUnique(cats)
    ensures var r := Prepare(f, cats, nowMs);
            var kind := CategoryTypeOf(f.kind).value;
            && r.data.categoryId.Some?
            && (!f.isCreatingCategory ==> r.data.categoryId == Some(f.categoryId))
            && (f.isCreatingCategory ==>
                  exists x :: x in r.registry && Some(x.id) == r.data.categoryId
                              && SameIgnoringCase(x.name, Trim(f.newCategoryName)) && x.kind == kind)
            && (f.isCreatingCategory && !HasCategoryNamed(cats, Trim(f.newCategoryName), kind) ==>
                  r.registry == cats + [Category(ClockId("cat_", nowMs), Trim(f.newCategoryName), kind, InitialSubs(f))])
            && (NamesUnique(cats) ==> NamesUnique(r.registry))
            && |cats| <= |r.registry| <= |cats| + 1
            && (forall i :: 0 <= i < |cats| ==> r.registry[i].id == cats[i].id && r.registry[i].name == cats[i].name)
  {
    PrepareCategorized(f, cats, nowMs);
    var kind := CategoryTypeOf(f.kind).value;
    RegistryLaws(cats, f, kind, ResolveCategory(cats, f, kind, nowMs), nowMs);
  }

  lemma RegistryLaws(cats: seq<Category>, f: Form, kind: CategoryType, c: Choice, nowMs: nat)
    requires c == ResolveCategory(cats, f, kind, nowMs)
    requires IdsUnique(cats)
    ensures var reg := RegistryAfter(cats, f, kind, c);
            && (f.isCreatingCategory ==>
                  exists x :: x in reg && x.id == c.id && SameIgnoringCase(x.name, Trim(f.newCategoryName)) && x.kind == kind)
            && (f.isCreatingCategory && !HasCategoryNamed(cats, Trim(f.newCategoryName), kind) ==>
                  reg == cats + [Category(ClockId("cat_", nowMs), Trim(f.newCategoryName), kind, InitialSubs(f))])
            && (NamesUnique(cats) ==> NamesUnique(reg))
            && |cats| <= |reg| <= |cats| + 1
            && (forall i :: 0 <= i < |cats| ==> reg[i].id == cats[i].id && reg[i].name == cats[i].name)
  {
    var reg := RegistryAfter(cats, f, kind, c);
    var t := Trim(f.newSubName);
    if c.isNew {
      var added := Category(c.id, Trim(f.newCategoryName), kind, InitialSubs(f));
      assert reg == cats + [added];
      assert reg[|cats|] == added;
      assert SameIgnoringCase(added.name, Trim(f.newCategoryName));
      AddCategoryLaws(cats, CategoryInput(Some(c.id), Trim(f.newCategoryName), kind, Some(InitialSubs(f))), c.id, c.id);
    } else if f.isCreatingSub && t != "" && FindCategory(cats, Some(c.id)).Some? {
      var cat := FindCategory(cats, Some(c.id)).value;
      if !HasSubNamed(cat.subCategories, t) {
        UpdatedRegistryLaws(cats, f, kind, c, cat, t);
      }
    }
  }

  lemma UpdatedRegistryLaws(cats: seq<Category>, f: Form, kind: CategoryType, c: Choice, cat: Category, t: string)
    requires IdsUnique(cats) && !c.isNew
    requires f.isCreatingCategory ==>
               exists x :: x in cats && x.id == c.id && SameIgnoringCase(x.name, Trim(f.newCategoryName)) && x.kind == kind
    requires FindCategory(cats, Some(c.id)) == Some(cat)
    ensures var reg := ReplaceCategory(cats, cat.(subCategories := cat.subCategories + [t]));
            && (f.isCreatingCategory ==>
                  exists x :: x in reg && x.id == c.id && SameIgnoringCase(x.name, Trim(f.newCategoryName)) && x.kind == kind)
            && (NamesUnique(cats) ==> NamesUnique(reg))
            && |reg| == |cats|
            && (forall i :: 0 <= i < |cats| ==> reg[i].id == cats[i].id && reg[i].name == cats[i].name)
  {
    var upd := cat.(subCategories := cat.subCategories + [t]);
    var reg := ReplaceCategory(cats, upd);
    ReplaceFinds(cats, cat, t);
    if NamesUnique(cats) {
      ReplaceKeepsNamesUnique(cats, upd);
    }
    if f.isCreatingCategory {
      var x :| x in cats && x.id == c.id && SameIgnoringCase(x.name, Trim(f.newCategoryName)) && x.kind == kind;
      FindCategoryOfMember(cats, x);
      assert cat == x;
      var k :| 0 <= k < |cats| && cats[k] == x;
      assert reg[k] == upd;
      assert reg[k] in reg;
    }
  }

  /**
   * A non-blank new sub-category name becomes the record's sub-category and is
   * then found, ignoring case, in the sub-categories of the record's category
   * (when that category exists); a blank one saves `''`; without creation the
   * selection is saved.
   */
  lemma SubCategoryRecorded(f: Form, cats: seq<Category>, nowMs: nat)
    requires Prepare(f, cats, nowMs).Accepted? && f.kind != Transfer
    requires IdsUnique(cats)
    requires forall x :: x in cats ==> x.id != ClockId("cat_", nowMs)
    ensures var r := Prepare(f, cats, nowMs);
            && (!f.isCreatingSub ==> r.data.subCategory == Some(f.subCategory))
            && (f.isCreatingSub && Trim(f.newSubName) == "" ==> r.data.subCategory == Some(""))
            && (f.isCreatingSub && Trim(f.newSubName) != "" ==>
                  r.data.subCategory == Some(Trim(f.newSubName))
                  && match FindCategory(r.registry, r.data.categoryId)
                     case Some(x) => HasSubNamed(x.subCategories, Trim(f.newSubName))
                     case None => forall x :: x in cats ==> Some(x.id) != r.data.categoryId)
  {
    PrepareCategorized(f, cats, nowMs);
    var kind := CategoryTypeOf(f.kind).value;
    if f.isCreatingSub && Trim(f.newSubName) != "" {
      SubRegistered(cats, f, kind, ResolveCategory(cats, f, kind, nowMs), nowMs);
    }
  }

  lemma SubRegistered(cats: seq<Category>, f: Form, kind: CategoryType, c: Choice, nowMs: nat)
    requires c == ResolveCategory(cats, f, kind, nowMs)
    requires IdsUnique(cats)
    requires forall x :: x in cats ==> x.id != ClockId("cat_", nowMs)
    requires f.isCreatingSub && Trim(f.newSubName) != ""
    ensures match FindCategory(RegistryAfter(cats, f, kind, c), Some(c.id))
            case Some(x) => HasSubNamed(x.subCategories, Trim(f.newSubName))
            case None => forall x :: x in cats ==> x.id != c.id
  {
    var reg := RegistryAfter(cats, f, kind, c);
    var t := Trim(f.newSubName);
    if c.isNew {
      var added := Category(c.id, Trim(f.newCategoryName), kind, [t]);
      assert reg == cats + [added];
      assert IdsUnique(reg) by {
        forall a, b | 0 <= a < |reg| && 0 <= b < |reg| && reg[a].id == reg[b].id
          ensures a == b
        {
          if a < |cats| { assert reg[a] == cats[a] && cats[a] in cats; }
          if b < |cats| { assert reg[b] == cats[b] && cats[b] in cats; }
        }
      }
      assert reg[|cats|] == added;
      FindCategoryOfMember(reg, added);
      assert SameIgnoringCase(added.subCategories[0], t);
    } else {
      match FindCategory(cats, Some(c.id))
      case None =>
        assert reg == cats;
      case Some(cat) =>
        if HasSubNamed(cat.subCategories, t) {
          assert reg == cats;
        } else {
          ReplaceFinds(cats, cat, t);
          var upd := cat.(subCategories := cat.subCategories + [t]);
          assert upd.subCategories[|cat.subCategories|] == t;
          assert SameIgnoringCase(upd.subCategories[|cat.subCategories|], t);
        }
    }
  }

  /**
   * Re-saving an opened record unchanged keeps its type, amount, note, account
   * and category, moves its date to that day's local midnight, and leaves the
   * registry alone; the optional `isFlagged` field is not carried over.
   */
  lemma EditRoundTrip(tx: Transaction, cats: seq<Category>, nowMs: nat)
    requires tx.amount > 0
    requires FullYear(tx.date) >= 100 && InTimeRange(Midnight(tx.date))
    requires tx.kind != Transfer ==> Truthy(tx.categoryId)
    ensures var r := Prepare(EditForm(tx), cats, nowMs);
            && r.Accepted?
            && r.data.kind == tx.kind && r.data.amount == tx.amount && r.data.note == tx.note
            && r.data.date == Midnight(tx.date)
            && r.registry == cats
            && r.data.isFlagged.None?
            && (tx.kind != Transfer ==>
                  r.data.categoryId == tx.categoryId && r.data.subCategory == Some(OrElse(tx.subCategory, ""))
                  && r.data.accountId == Some(OrElse(tx.accountId, "")))
            && (tx.kind == Transfer ==>
                  r.data.fromAccountId == Some(OrElse(tx.fromAccountId, ""))
                  && r.data.toAccountId == Some(OrElse(tx.toAccountId, "")))
  {
    var f := EditForm(tx);
    assert f == EditFormOf(tx);
    assert AmountOk(f) by {
      assert f.amount != "";
    }
  }

  /** After switching to income or expense nothing can be saved until a category is chosen or named. */
  lemma SwitchTypeNeedsCategory(f: Form, k: TransactionType, cats: seq<Category>, nowMs: nat)
    requires k != Transfer
    ensures Prepare(SwitchType(f, k), cats, nowMs) == Refused(if AmountOk(f) then NoCategory else BadAmount)
  {
  }

  /** With a transfer no category is touched and the record has neither category nor account. */
  lemma TransferNeedsNoCategory(f: Form, cats: seq<Category>, nowMs: nat)
    requires f.kind == Transfer
    ensures var r := Prepare(f, cats, nowMs);
            r.Accepted? ==> r.registry == cats && r.data.categoryId.None? && r.data.subCategory.None? && r.data.accountId.None?
    ensures var r := Prepare(f, cats, nowMs);
            r.Refused? ==> r.why == BadAmount || r.why == InvalidDate
  {
  }

  /** Choosing "create new" and submitting with the name left empty is refused. */
  lemma NewCategoryNeedsName(f: Form, cats: seq<Category>, nowMs: nat)
    requires f.kind != Transfer && AmountOk(f)
    ensures Prepare(SelectCategory(f, NewOption), cats, nowMs) == Refused(BlankCategoryName)
  {
    assert Trim("") == "";
  }

  /** A freshly opened new entry cannot be saved before an amount is typed. */
  lemma NewFormNeedsAmount(initialType: Option<TransactionType>, accs: seq<Account>, now: int, cats: seq<Category>, nowMs: nat)
    ensures Prepare(NewForm(initialType, accs, now), cats, nowMs) == Refused(BadAmount)
  {
  }

  /**
   * Saving an edit keeps the log's length and ids and puts the record under the
   * edited id; saving a new entry puts it in front under the new id.
   */
  lemma SaveIntoLaws(txs: seq<Transaction>, data: Transaction, edit: Option<Transaction>, uuid: string)
    ensures edit.Some? ==> |SaveInto(txs, data, edit, uuid)| == |txs|
                           && TransactionIds(SaveInto(txs, data, edit, uuid)) == TransactionIds(txs)
                           && forall i :: 0 <= i < |txs| && txs[i].id == edit.value.id ==>
                                SaveInto(txs, data, edit, uuid)[i] == data.(id := edit.value.id)
    ensures edit.None? ==> SaveInto(txs, data, edit, uuid) == [data.(id := uuid)] + txs
  {
    if edit.Some? {
      ReplaceTransactionLaws(txs, data.(id := edit.value.id));
    } else {
      var r := PrependTransaction(txs, data, uuid);
      assert r == [r[0]] + r[1..];
    }
  }
}
