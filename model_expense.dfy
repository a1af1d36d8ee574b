// models/Expense.js: a spending record owned by any kind of user.
module ExpenseModel {
  import opened Common

  datatype Expense = Expense(
    userId: nat,
    userType: string,
    title: string,
    category: string,
    amount: int,
    date: int)

  /** The roles the schema's userType enum admits. */
  predicate IsUserType(t: string)
  {
    t == "farmer" || t == "vendor" || t == "buyer" || t == "government employee"
  }
}
