/**
 * The value shapes of the finance tracker: accounts, categories, transactions,
 * category budgets and the application settings.
 *
 * Amounts are integers in minor currency units (cents); dates are local-time
 * instants in milliseconds (see module Calendar).
 */
module Types {

  datatype Option<T> = None | Some(value: T)

  /** 'income' | 'expense' | 'transfer' */
  datatype TransactionType = Income | Expense | Transfer

  /** A category is for income or for expenses; there are no transfer categories. */
  datatype CategoryType = IncomeCategory | ExpenseCategory

  /** 'cash' | 'bank' | 'wallet' */
  datatype AccountKey = Cash | Bank | Wallet

  datatype Account = Account(id: string, key: AccountKey, name: string)

  datatype Category = Category(id: string, name: string, kind: CategoryType, subCategories: seq<string>)

  /** Only id, type, amount, date and note are always present; every reference is optional. */
  datatype Transaction = Transaction(
    id: string,
    kind: TransactionType,
    amount: int,
    date: int,
    note: string,
    accountId: Option<string>,
    categoryId: Option<string>,
    subCategory: Option<string>,
    fromAccountId: Option<string>,
    toAccountId: Option<string>,
    isFlagged: Option<bool>)

  datatype CategoryBudget = CategoryBudget(categoryId: string, amount: int)

  datatype Theme = Light | Dark | Auto
  datatype FontSize = Small | Medium | Large
  datatype DashboardView = TodayView | WeekView | MonthView
  datatype AutoBackup = BackupOff | BackupDaily | BackupWeekly
  datatype ReportChartType = BarChart | PieChart | LineChart

  datatype Settings = Settings(
    currency: string,
    currencies: seq<string>,
    theme: Theme,
    fontSize: FontSize,
    language: string,
    defaultDashboardView: DashboardView,
    showBudgetOnDashboard: bool,
    showCategoryBudgetsOnDashboard: bool,
    showFinancialOverviewChart: bool,
    showAccountsOnDashboard: bool,
    showQuickActionsOnDashboard: bool,
    showFinancialHealthScore: bool,
    autoBackup: AutoBackup,
    reportChartType: ReportChartType)

  /** A `Partial<AppSettings>`: the fields a settings update carries. */
  datatype SettingsPatch = SettingsPatch(
    currency: Option<string>,
    currencies: Option<seq<string>>,
    theme: Option<Theme>,
    fontSize: Option<FontSize>,
    language: Option<string>,
    defaultDashboardView: Option<DashboardView>,
    showBudgetOnDashboard: Option<bool>,
    showCategoryBudgetsOnDashboard: Option<bool>,
    showFinancialOverviewChart: Option<bool>,
    showAccountsOnDashboard: Option<bool>,
    showQuickActionsOnDashboard: Option<bool>,
    showFinancialHealthScore: Option<bool>,
    autoBackup: Option<AutoBackup>,
    reportChartType: Option<ReportChartType>)

  // ----- the string literal unions -----

  function TransactionTypeName(t: TransactionType): string {
    match t
    case Income => "income"
    case Expense => "expense"
    case Transfer => "transfer"
  }

  /** A transaction type is exactly one of the three literals. */
  function ParseTransactionType(s: string): (r: Option<TransactionType>)
    ensures r.Some? <==> s == "income" || s == "expense" || s == "transfer"
    ensures r.Some? ==> TransactionTypeName(r.value) == s
  {
    if s == "income" then Some(Income)
    else if s == "expense" then Some(Expense)
    else if s == "transfer" then Some(Transfer)
    else None
  }

  lemma TransactionTypeRoundTrip(t: TransactionType)
    ensures ParseTransactionType(TransactionTypeName(t)) == Some(t)
  {
    match t
    case Income =>
    case Expense => assert TransactionTypeName(t) != "income";
    case Transfer => assert TransactionTypeName(t) != "income" && TransactionTypeName(t) != "expense";
  }

  function AccountKeyName(k: AccountKey): string {
    match k
    case Cash => "cash"
    case Bank => "bank"
    case Wallet => "wallet"
  }

  /** An account key is exactly one of the three literals. */
  function ParseAccountKey(s: string): (r: Option<AccountKey>)
    ensures r.Some? <==> s == "cash" || s == "bank" || s == "wallet"
    ensures r.Some? ==> AccountKeyName(r.value) == s
  {
    if s == "cash" then Some(Cash)
    else if s == "bank" then Some(Bank)
    else if s == "wallet" then Some(Wallet)
    else None
  }

  lemma AccountKeyRoundTrip(k: AccountKey)
    ensures ParseAccountKey(AccountKeyName(k)) == Some(k)
  {
    match k
    case Cash =>
    case Bank => assert AccountKeyName(k) != "cash";
    case Wallet => assert AccountKeyName(k) != "cash" && AccountKeyName(k) != "bank";
  }

  /** The transaction type a category stands for; never a transfer. */
  function CategoryTransactionType(c: CategoryType): (r: TransactionType)
    ensures r != Transfer
    ensures CategoryTypeOf(r) == Some(c)
  {
    match c
    case IncomeCategory => Income
    case ExpenseCategory => Expense
  }

  /** The category type matching a transaction type: none for a transfer. */
  function CategoryTypeOf(t: TransactionType): (r: Option<CategoryType>)
    ensures r.None? <==> t == Transfer
  {
    match t
    case Income => Some(IncomeCategory)
    case Expense => Some(ExpenseCategory)
    case Transfer => None
  }

  // ----- JavaScript truthiness of optional strings -----

  /** `o` is set and not the empty string. */
  predicate Truthy(o: Option<string>) {
    o.Some? && o.value != ""
  }

  /** `o || d` */
  function OrElse(o: Option<string>, d: string): (r: string)
    ensures Truthy(o) ==> r == o.value
    ensures !Truthy(o) ==> r == d
  {
    if o.Some? && o.value != "" then o.value else d
  }

  /** `categories.find(c => c.id === id)`: the first category with that id. */
  function FindCategory(cats: seq<Category>, id: Option<string>): (r: Option<Category>)
    ensures r.Some? ==> r.value in cats && Some(r.value.id) == id
    ensures r.None? <==> forall c :: c in cats ==> Some(c.id) != id
    ensures cats != [] && Some(cats[0].id) == id ==> r == Some(cats[0])
    ensures r.Some? ==> exists i :: 0 <= i < |cats| && cats[i] == r.value && forall j :: 0 <= j < i ==> Some(cats[j].id) != id
  {
    if cats == [] then None
    else if Some(cats[0].id) == id then Some(cats[0])
    else
      var rest := FindCategory(cats[1..], id);
      FirstPastHead(cats, id, rest);
      rest
  }

  /** A first match in the tail, behind a head that does not match, is a first match in the whole. */
  lemma FirstPastHead(cats: seq<Category>, id: Option<string>, r: Option<Category>)
    requires cats != [] && Some(cats[0].id) != id
    requires r.Some? ==> exists i :: 0 <= i < |cats[1..]| && cats[1..][i] == r.value
                                     && forall j :: 0 <= j < i ==> Some(cats[1..][j].id) != id
    ensures r.Some? ==> exists i :: 0 <= i < |cats| && cats[i] == r.value && forall j :: 0 <= j < i ==> Some(cats[j].id) != id
  {
    if r.Some? {
      var k :| 0 <= k < |cats[1..]| && cats[1..][k] == r.value && forall j :: 0 <= j < k ==> Some(cats[1..][j].id) != id;
      assert cats[k + 1] == r.value;
      forall j | 0 <= j < k + 1 ensures Some(cats[j].id) != id {
        if j > 0 {
          assert cats[j] == cats[1..][j - 1];
        }
      }
    }
  }

  /** The shape a transaction has when it comes from the entry form. */
  predicate WellShaped(tx: Transaction) {
    if tx.kind == Transfer then
      tx.fromAccountId.Some? && tx.toAccountId.Some?
      && tx.accountId.None? && tx.categoryId.None? && tx.subCategory.None?
    else
      tx.accountId.Some? && tx.fromAccountId.None? && tx.toAccountId.None?
  }
}
