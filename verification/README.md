# financy, modelled in Dafny

financy is a personal finance tracker. Users register, create spending and
income categories, and record transactions in them. The server offers a
filtered, paged list of a user's transactions. This project models:

- the three backend services over in-memory tables:
  - transactions: create, update, delete, the per-user and per-category
    reads, the count, and the paged query;
  - categories: create, list, find, update, delete;
  - registration.
- the client-side helpers that consume their answers:
  - the page-button list and the item range;
  - the category colour palette;
  - the filter options and the filter of the transactions page;
  - the summary cards of the categories page.

Layout, one module per file:

| file | module | what it holds |
|---|---|---|
| `wrappers.dfy` | `Wrappers` | `Option`, `Result` |
| `seqs.dfy` | `Seqs` | filter, count, find, substring search, first-occurrence de-duplication, and their lemmas |
| `entities.dfy` | `Entities` | the stored records, the service inputs, the error kinds and messages |
| `database.dfy` | `Database` | class `Database`, whose tables are sequence fields, with the unique-key invariant and `findUnique` lookups |
| `pagination.dfy` | `Pagination` | page and limit normalisation, `skip`, page count, the metadata record, the `skip`/`take` window |
| `transaction_filter.dfy` | `TransactionFilter` | the `where` clause built field by field, and the filter it must mean |
| `date_order.dfy` | `DateOrder` | newest-first ordering |
| `transaction_service.dfy` | `Transactions` | class `TransactionService` |
| `category_service.dfy` | `Categories` | class `CategoryService` |
| `auth_service.dfy` | `Auth` | token issue, and class `AuthService` with registration |
| `ui_types.dfy` | `UiTypes` | the client's category and transaction shapes |
| `pagination_utils.dfy` | `PaginationUtils` | `getPageNumbers`, `getPaginationRange` |
| `category_utils.dfy` | `CategoryUtils` | the palette, the icon names, `getCategoryColor` |
| `transactions_page.dfy` | `TransactionsPage` | the filter-options loop and the four-way filter |
| `categories_page.dfy` | `CategoriesPage` | total categories, total transactions, most used category |

## How the services are modelled

- Each service is a class holding a reference to the `Database`. A service
  operation that changes a table is a method with `modifies db`. Its
  postcondition states the whole new state in terms of the old one: which
  rows were added, replaced or removed, and that the other tables are
  unchanged. It also states that `Valid()` still holds. `Valid()` is the
  invariant that ids are unique in every table and emails are unique among
  users.
- Reads are functions over `db`.
- A thrown error becomes `Err` of a `ServiceError`. The kinds are
  `NotFound`, `Forbidden`, `Conflict` and `Failed`, each carrying the
  source's message.
- Things the database or a library supplies are parameters:
  - a new row's id;
  - the server's current date;
  - the password hash;
  - the token signer, which answers `None` where signing throws.

Behaviour of the code that the model keeps, and that the lemmas make visible:

- `updateTransaction` accepts any new `categoryId` without looking at who
  owns that category (`Transactions.UpdateDoesNotCheckCategoryOwner`).
  Creation refuses such a category.
- `updateCategory` and `deleteCategory` take no caller, so they check no
  ownership (backend/src/resolvers/category.resolver.ts:33-47).
- `deleteCategory` issues no delete on transactions
  (backend/src/services/category.service.ts:61-77). What the database does
  with the category's transactions through its referential action on
  `Transaction.categoryId` (cascade or refusal) is not modelled.
- On a page past the last one, the client's item range starts after the
  last item (`PaginationUtils.RangePastLastPageIsReversed`).

## Model

| member | source | states |
|---|---|---|
| Database.Database.FindTransaction | backend/src/services/transaction.service.ts:54-58 | `findUnique` by id: a stored row with that id, or none exactly when no row has it |
| Database.Database.FindCategory | backend/src/services/transaction.service.ts:8-12 | `findUnique` by id on categories: a stored row with that id, or none exactly when no row has it |
| Database.Database.FindUserByEmail | backend/src/services/auth.service.ts:9-11 | `findUnique` by email: a stored user with that email, or none exactly when no user has it |
| Database.RemoveAtDropsOnlyItsKey | backend/src/services/transaction.service.ts:94-98 | deleting one row of a table with a unique key removes exactly the rows with that key, and the table shrinks by one |
| Pagination.ValidPage | backend/src/services/transaction.service.ts:118 | the page served is at least 1, and equals the requested page when that is at least 1 |
| Pagination.ValidLimit | backend/src/services/transaction.service.ts:119 | the page size is within 1..100, equal to the request when that is in range, and 1 or 100 when the request is below or above it |
| Pagination.Skip | backend/src/services/transaction.service.ts:120 | the offset is never negative, is 0 only on page 1, and page `p` ends after `p * limit` items |
| Pagination.PagesTile | backend/src/services/transaction.service.ts:120 | each page starts where the previous page ends |
| Pagination.PageCount | backend/src/services/transaction.service.ts:168 | `totalPages` is the fewest pages of `limit` items that hold every match, and 0 exactly when there are no matches |
| Pagination.BeforeLastPageIff | backend/src/services/transaction.service.ts:168-169 | `page < totalPages` holds exactly when matches remain after page `page` |
| Pagination.PageMetadata | backend/src/services/transaction.service.ts:168-182 | the metadata echoes page, limit and total; `hasNextPage` holds iff matches remain after the page; `hasPreviousPage` holds iff some precede it |
| Pagination.Window | backend/src/services/transaction.service.ts:153-156 | `skip`/`take` returns at most `take` rows, those from position `skip` on, and none when `skip` is past the end |
| Pagination.PageNonEmptyIff | backend/src/services/transaction.service.ts:152-165 | a page holds items exactly when it is one of the first `totalPages` pages; a later page is empty, not an error |
| Pagination.PageSize | backend/src/services/transaction.service.ts:152-168 | every page before the last is full, and the last holds the remainder |
| Pagination.TwentySevenItemsAtTenPerPage | backend/src/services/transaction.service.ts:118-170 | 27 matches at 10 per page make 3 pages of 10, 10 and 7 items, with page 4 empty and the flags set accordingly |
| TransactionFilter.BuildWhere | backend/src/services/transaction.service.ts:123-149 | the clause built field by field is always scoped to the caller, and admits a transaction exactly when each truthy filter field admits it |
| TransactionFilter.EmptyFilterMatchesAllOwn | backend/src/services/transaction.service.ts:123-125 | with no filter, or only absent or empty fields, the query matches exactly the caller's transactions |
| TransactionFilter.TypeFilterPartitions | backend/src/services/transaction.service.ts:133-135 | adding a type filter splits the matches into income and outcome, whose counts add up to the unfiltered count |
| DateOrder.InsertByDate | backend/src/services/transaction.service.ts:160-162 | inserting adds exactly that row: the result is the old rows plus it, as a multiset |
| DateOrder.InsertByDateKeepsOrder | backend/src/services/transaction.service.ts:160-162 | inserting into a newest-first list keeps it newest first |
| DateOrder.SortByDateDesc | backend/src/services/transaction.service.ts:160-162 | `orderBy: { date: "desc" }` yields a newest-first rearrangement of the same rows |
| Seqs.Select | backend/src/services/transaction.service.ts:33-38 | `findMany` with a `where` returns exactly the rows satisfying it |
| Seqs.SelectIsSubsequence | frontend/src/pages/transactions/index.tsx:76 | filtering keeps the surviving elements in their original order |
| Seqs.SelectCongruent | backend/src/services/transaction.service.ts:152-165 | two predicates that agree on every row select the same rows |
| Seqs.CountIsSizeOfSelect | backend/src/services/transaction.service.ts:164 | `count` with a `where` equals the number of rows `findMany` with the same `where` returns |
| Seqs.ContainsIffOccurs | backend/src/services/transaction.service.ts:127-131 | the substring test succeeds exactly when the text occurs at some position |
| Seqs.Find | frontend/src/lib/category-utils.ts:86 | `find` returns the first element satisfying the test, or none exactly when no element does |
| Seqs.DedupByFirstOccurrences | frontend/src/pages/transactions/index.tsx:59-70 | the walk keeps exactly the first element of each key, once, in order of first occurrence |
| Transactions.MergeUpdate | backend/src/services/transaction.service.ts:70-77 | each field the update gives replaces the stored one, a null or absent field keeps it, and the id and owner never change |
| Transactions.EmptyUpdateKeepsRecord | backend/src/services/transaction.service.ts:70-77 | an update giving no field leaves the record as it was |
| Transactions.MergeUpdateIdempotent | backend/src/services/transaction.service.ts:70-77 | applying the same update twice equals applying it once |
| Transactions.UpdateDoesNotCheckCategoryOwner | backend/src/services/transaction.service.ts:62-75 | the update can move a transaction into a category owned by another user |
| Transactions.PageOfNewestFirst | backend/src/services/transaction.service.ts:152-163 | a page of the newest-first matches holds only matches and is itself newest first |
| Transactions.TransactionService.CreateTransaction | backend/src/services/transaction.service.ts:7-30 | unknown category: "Category not found"; someone else's category: the permission error; in both cases nothing is inserted. Success happens iff the caller owns the category. It appends one row owned by the caller, whose date defaults to the server's date, and keeps ids unique |
| Transactions.TransactionService.GetTransactionsByUserId | backend/src/services/transaction.service.ts:33-39 | exactly the caller's transactions, in table order |
| Transactions.TransactionService.GetTransactionsByCategoryId | backend/src/services/transaction.service.ts:41-51 | fails with the permission error iff the category owner is not the caller; otherwise exactly the category's transactions |
| Transactions.TransactionService.CountTransactionsByCategoryId | backend/src/services/transaction.service.ts:103-109 | the number of stored transactions in the category |
| Transactions.TransactionService.UpdateTransaction | backend/src/services/transaction.service.ts:53-79 | unknown id: "Transaction not found"; another owner: the permission error; in both cases the table is unchanged. Otherwise the merged record replaces that row and no other row changes |
| Transactions.TransactionService.DeleteTransaction | backend/src/services/transaction.service.ts:81-101 | the same two failures, which leave the table unchanged. Otherwise it answers true, and exactly that one row is gone |
| Transactions.TransactionService.GetTransactionsPaginated | backend/src/services/transaction.service.ts:111-184 | the items are the window at `skip` of the caller's filtered transactions, newest first, at most `limit` (≤ 100) of them; `totalItems` counts every match under the same predicate; the metadata is that of the normalised page and limit |
| Categories.WriteField | backend/src/services/category.service.ts:55-56 | an omitted field keeps the column, a null clears it, a given value replaces it |
| Categories.ApplyCategoryInput | backend/src/services/category.service.ts:49-58 | the update writes name, color and icon and keeps the id and owner |
| Categories.ApplyCategoryInputIdempotent | backend/src/services/category.service.ts:49-58 | writing the same input twice equals writing it once |
| Categories.CategoryService.CreateCategory | backend/src/services/category.service.ts:5-14 | appends one category owned by the caller with the given name, color and icon; other tables are unchanged and ids stay unique |
| Categories.CategoryService.GetCategoriesByUserId | backend/src/services/category.service.ts:16-22 | exactly the user's categories, in table order |
| Categories.CategoryService.FindCategoryById | backend/src/services/category.service.ts:24-36 | the category with that id, or "Category not found" exactly when none has it |
| Categories.CategoryService.UpdateCategory | backend/src/services/category.service.ts:38-59 | unknown id: "Category not found" and no change; otherwise only that row is rewritten, keeping its id and owner, and no caller is checked |
| Categories.CategoryService.DeleteCategory | backend/src/services/category.service.ts:61-77 | unknown id: "Category not found" and no change; otherwise it answers the deleted row, exactly that row is gone, and the transactions table is unchanged |
| Auth.GenerateTokens | backend/src/services/auth.service.ts:30-43 | success iff both signings succeed: the two tokens are signed over the user's id and email with lifetimes "30m" and "1d", alongside the same user; otherwise "Error generating tokens." |
| Auth.AuthService.Register | backend/src/services/auth.service.ts:8-28 | a taken email: "An user with this email already exists." and no user is added. Otherwise exactly one user is appended, with the given name and email and the hash of the password; the answer is the token issue for that user; emails stay unique |
| UiTypes.UiTransactionType.Name | frontend/src/types/index.ts:43-46 | the enum's values are "income" and "outcome" |
| PaginationUtils.AllPagesShape | frontend/src/lib/pagination-utils.ts:10-15 | with at most 5 pages, the list of all pages is well formed and contains every page |
| PaginationUtils.StartShape | frontend/src/lib/pagination-utils.ts:17-20 | `[1,2,3,4,"...",last]` is well formed and contains the current page |
| PaginationUtils.EndShape | frontend/src/lib/pagination-utils.ts:22-28 | `[1,"...",last-3..last]` is well formed and contains the current page |
| PaginationUtils.MiddleShape | frontend/src/lib/pagination-utils.ts:30-38 | `[1,"...",c-1,c,c+1,"...",last]` is well formed and contains the current page |
| PaginationUtils.GetPageNumbers | frontend/src/lib/pagination-utils.ts:3-41 | the loops and pushes build exactly the four-case list `PageNumbers`: every page up to 5 pages, else `[1,2,3,4,"...",last]`, `[1,"...",last-3..last]` or `[1,"...",c-1,c,c+1,"...",last]` by where the current page lies |
| PaginationUtils.PageNumbersShape | frontend/src/lib/pagination-utils.ts:3-41 | every page list has at most 7 entries, starts at 1 and ends at the last page; numbers strictly increase, neighbouring numbers are consecutive, and every "..." stands for a gap; the current page is listed when it is in range |
| PaginationUtils.GetPaginationRange | frontend/src/lib/pagination-utils.ts:43-54 | "0" exactly when there are no items; otherwise the start is `(page-1)*perPage+1` and the end is the smaller of `page*perPage` and the total |
| PaginationUtils.RangeMatchesPage | frontend/src/lib/pagination-utils.ts:50-53 | for a non-empty page, the range names exactly the positions of the page's items on the server |
| PaginationUtils.RangePastLastPageIsReversed | frontend/src/lib/pagination-utils.ts:50-53 | past the last page the range starts after the last item and ends at it |
| CategoryUtils.PaletteNamesDistinct | frontend/src/lib/category-utils.ts:21-78 | seven entries, green first, with distinct names |
| CategoryUtils.IconNamesDistinct | frontend/src/lib/category-utils.ts:2-19 | sixteen distinct icon names |
| CategoryUtils.GetCategoryColor | frontend/src/lib/category-utils.ts:85-88 | always a palette entry: the one with the given name when there is one, otherwise the green entry |
| CategoryUtils.LookupFindsOwnEntry | frontend/src/lib/category-utils.ts:85-88 | looking up an entry's own name finds that entry |
| CategoryUtils.UnknownColorIsGreen | frontend/src/lib/category-utils.ts:87 | an unknown or empty colour name falls back to green |
| TransactionsPage.PeriodStep | frontend/src/pages/transactions/index.tsx:63-65 | the `includes` test adds a period exactly when the walk meets a new one |
| TransactionsPage.CategoryStep | frontend/src/pages/transactions/index.tsx:67-69 | the `find` by id adds a category exactly when the walk meets a new id |
| TransactionsPage.DistinctCategoriesAndPeriods | frontend/src/pages/transactions/index.tsx:55-73 | the loop computes the first-occurrence walks of the transactions' categories and of their periods |
| TransactionsPage.DistinctCategoriesOf | frontend/src/pages/transactions/index.tsx:59-70 | no category id twice; every transaction's category id is present; every entry is some transaction's category; first occurrences in order |
| TransactionsPage.DistinctPeriodsOf | frontend/src/pages/transactions/index.tsx:60-65 | no period twice; exactly the transactions' periods; in order of first occurrence |
| TransactionsPage.CategoryListCovers | frontend/src/pages/transactions/index.tsx:59-70 | a first-occurrence list of categories covers every transaction's category id, holds only transactions' categories, and no id twice |
| TransactionsPage.PeriodListCovers | frontend/src/pages/transactions/index.tsx:60-65 | a first-occurrence list of periods holds exactly the transactions' periods, none twice |
| TransactionsPage.FilteredTransactions | frontend/src/pages/transactions/index.tsx:76-84 | an order-preserving subsequence, which keeps a transaction iff all four tests pass; a type or category other than "all" keeps only exact matches |
| TransactionsPage.DefaultFiltersKeepAll | frontend/src/pages/transactions/index.tsx:26-31 | the initial form (empty search, everything "all") keeps every transaction |
| CategoriesPage.SumFoldIsSum | frontend/src/pages/categories/index.tsx:49 | the `reduce` sum from 0 equals the total of the counts (0 for no categories) |
| CategoriesPage.MostUsedFold | frontend/src/pages/categories/index.tsx:51 | the `reduce` ends on its start value or a list element, with a count at least that of every element |
| CategoriesPage.MostUsedFoldIsLastMax | frontend/src/pages/categories/index.tsx:51 | the `reduce` keeps its start value only when that beats every count, and otherwise ends on the last category with the largest count |
| CategoriesPage.Summarize | frontend/src/pages/categories/index.tsx:48-52 | total categories is the length; total transactions is the sum of counts; the most used category is absent iff the list is empty, and is otherwise a member with the largest count |
| CategoriesPage.MostUsedIsLastMax | frontend/src/pages/categories/index.tsx:51 | ties go to the later element: the most used category is the last one with the largest count |
| CategoriesPage.TieGoesToLater | frontend/src/pages/categories/index.tsx:51 | of two categories with equal counts, the second is the most used |

## Left out

- Persistence: Prisma is replaced by sequences in insertion order. The
  following are not modelled:
  - generated columns such as `createdAt` and `updatedAt`;
  - foreign-key enforcement between tables;
  - the `include: { category: true }` join of the paged query. Its items
    carry the transaction fields only.
- Title matching in the paged query is a case-sensitive substring test.
  Prisma's `contains` depends on the database collation.
- Rows with equal dates keep table order under `orderBy: { date: "desc" }`.
  The database does not promise any tie order.
- The paged fetch and its count run concurrently (`Promise.all`). They are
  modelled as two reads of the same state.
- Amounts are `real` and carried unchanged. Floating point and currency
  formatting are not modelled.
- `hashPassword`, `signJwt`, the client's accent-removing search key and its
  date-to-period formatting are external functions, given as parameters.
  Their own behaviour is not modelled.
- Categories.WriteField: the rule that an undefined field is not written
  is Prisma's own. It is assumed here, not derived.
- PaginationUtils.GetPaginationRange: returns the two numbers. The string
  rendering (`"0"`, `"<start> a <end>"`) is not modelled.
- The palette's strings are written out one by one in the client. Here
  each entry is built from its name by `CategoryUtils.Entry`, which yields
  the same seven entries string for string.
- The resolvers, the auth middleware, `user.service.ts`, the React
  components, forms, modals, Apollo queries, the auth store and the server
  bootstrap only forward or render.
- Categories.CategoryService.DeleteCategory: the application code issues no
  delete on transactions, so the model leaves the transactions table as it
  is. The database's referential action on the required
  `Transaction.categoryId` (cascade, or refusing the delete) is not
  modelled, so the model does not say what becomes of those transactions.
