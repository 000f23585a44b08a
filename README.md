# Product catalogue: service, storefront and admin page

This project models the core of a small e-commerce catalogue:

- **Backend product service.** A Spring `ProductService` over a JPA repository. It lists, finds, creates, updates and deletes products.
- **Storefront page** (`app.js`). It shows stock labels, truncates descriptions and fetches from the API with a retry-and-back-off policy.
- **Admin page** (`admin.js`). It shows stock badges, reads the product form into a JSON body, chooses between create and update, and tracks which product is being edited or deleted.
- **Property-test generators** (`PropertyTestBase`). They define what a valid product is.

The Dafny modules follow the program's parts:

| file | module | models |
|---|---|---|
| `wrappers.dfy` | `Wrappers` | `Option` |
| `product.dfy` | `Products` | the `Product` entity and its six client fields |
| `validity.dfy` | `ProductValidity` | the generators, as validity predicates |
| `js_text.dfy` | `JsText` | JavaScript `trim` and integer rendering |
| `storefront.dfy` | `Storefront` | `getStockStatus`, `truncateText`, `fetchWithRetry` |
| `product_service.dfy` | `Service` | `ProductService` and its repository |
| `service_properties.dfy` | `ServiceProperties` | the backend property tests, as verified scenarios over the service |
| `admin.dfy` | `Admin` | the admin page's logic and state |

## How the model represents the program

**The repository.**
- The service is a class. Its table is a `map<nat, Product>` from id to record.
- The order in which `findAll` lists rows is a sequence of ids.
- The identity generator is a counter that only grows.
- A ghost set records deleted ids, so the model can state that an id is never reused.
- `save` inserts a record that has no id under a fresh id. It overwrites the row of a record that has one.
- The invariant `Consistent` says:
  - every row is keyed by its own id;
  - every id lies below the counter;
  - deleted ids are gone;
  - the listing order names every row exactly once.

**Prices** are whole cents. The generator draws between 0.01 and 9999.99 and rounds to two decimals, so a valid price is 1 to 999999 cents.

**Java's `trim`** removes characters up to U+0020. So `!s.trim().isEmpty()` is modelled as "some character lies above U+0020".

**JavaScript's `trim`** removes the ECMAScript WhiteSpace and LineTerminator characters. `JsText.IsWhiteSpace` lists them.

**Falsy ids.** JavaScript treats an id of `0` and a `null` id alike in `if (editingProductId)` and `if (!deletingProductId)`. `Admin.Truthy` models that test.

**The retry policy.** `fetchWithRetry` takes the outcomes of successive fetches as a sequence, because the network is not part of the model. It returns the settled result, the sleeps taken and the number of fetches. The recursive call is `return fetchWithRetry(...)` with no `await`, at `frontend/html/js/app.js:74` and `:88`. The frame's promise therefore adopts the deeper promise unchanged, and a rejection from a deeper frame never reaches the outer frame's `catch`. As a result, no run makes more than four fetches (`Storefront.AtMostFourFetches`). A run of server errors and network failures, in any mix, makes exactly four (`Storefront.MixedFailures`). The backoff delays are 1000, 2000 and 4000 ms.

**Scenarios.** The backend property tests (create, update, list, delete) become methods in `ServiceProperties`. Each starts from an empty store, as the tests do after `deleteAll`. The tests call the repository directly; the scenarios call the service methods, which delegate to it. Their `requires` are the generators' validity predicates. The service itself needs no valid input.

## Model

| member | source | states |
|---|---|---|
| `Products.NewProduct` | backend/src/test/java/com/ecommerce/PropertyTestBase.java:91-99 | The six-argument constructor carries exactly the six fields given and leaves the id and both timestamps unset |
| `ProductValidity.ImageUrlRoundTrip` | backend/src/test/java/com/ecommerce/PropertyTestBase.java:77-86 | Every url built from a key of 10 to 100 allowed characters is valid, and the key can be read back from it |
| `ProductValidity.ValidImageUrlIsGenerated` | backend/src/test/java/com/ecommerce/PropertyTestBase.java:77-86 | Every valid non-null url is `https://example.com/images/` + key + `.jpg` for its own key, so it is 41 to 131 characters long |
| `ProductValidity.NameNotBlankIff` | backend/src/test/java/com/ecommerce/PropertyTestBase.java:20-28 | Over the name alphabet, a name passes Java's not-blank filter exactly when some character is not a space |
| `JsText.TrimSlice` | frontend/html/js/admin.js:285-290 | `trim` returns a middle slice of its input; everything it drops is white space; the slice neither starts nor ends with white space |
| `JsText.TrimEmptyIff` | frontend/html/js/admin.js:286-290 | `trim` gives the empty string exactly when the input is all white space — both directions |
| `JsText.TrimIdempotent` | frontend/html/js/admin.js:285-290 | Trimming twice is the same as trimming once |
| `JsText.IntToDecimalRoundTrip` | frontend/html/js/app.js:143-145 | The decimal text put into the labels for any integer, negative included, reads back as that integer |
| `Storefront.GetStockStatus` | frontend/html/js/app.js:139-147 | The class is `out-of-stock` exactly at 0, `low-stock` exactly for other quantities below 10, `in-stock` exactly from 10 up |
| `Storefront.TruncateText` | frontend/html/js/app.js:149-153 | The result is empty exactly for a missing or empty text; a text that fits is returned unchanged; a longer one becomes `max(0, maxLength)` characters plus `...` |
| `Storefront.TruncateKeepsPrefix` | frontend/html/js/app.js:149-152 | For every string text, the result starts with as much of the text as the bound allows |
| `Storefront.TruncateIdempotent` | frontend/html/js/app.js:149-153 | For any bound, truncating a truncated text again with the same bound changes nothing |
| `Storefront.DelaySchedule` | frontend/html/js/app.js:9-13 | The sleeps are 1000, 2000 and 4000 ms, each twice the one before |
| `Storefront.Decide` | frontend/html/js/app.js:69-90 | One frame retries only while its retry count is below 3. Below 3 it retries every server error and network failure. An ok response is returned. A client error throws its status in the corrected code, and in the code as written whenever its body is not `null` |
| `Storefront.FetchWithRetry` | frontend/html/js/app.js:59-92 | A run makes at least one fetch and never more than offered. The retry counts taken plus the fetches stay within 4, and a frame entered at count 3 fetches once. The i-th sleep is 1000·2^(count+i) |
| `Storefront.RunSettlesOnLastFetch` | frontend/html/js/app.js:59-92 | Every fetch but the last decided to retry, and the last one settled the whole promise with its own result. A deeper failure is never caught again by an outer frame |
| `Storefront.AtMostFourFetches` | frontend/html/js/app.js:70-74 | From the first call, no mix of outcomes causes more than four fetches or three sleeps |
| `Storefront.OkReturnedAsIs` | frontend/html/js/app.js:82 | An ok response is returned as it is, with no sleep and no further fetch |
| `Storefront.ClientErrorPropagates` | frontend/html/js/app.js:69-90 | Every retried fetch was a server error or a network failure, and a final client error rejects with that status. This holds for the corrected code always, and for the code as written whenever no error body is `null` |
| `Storefront.AllServerErrors` | frontend/html/js/app.js:70-79 | Persistent server errors cause exactly four fetches with sleeps 1000, 2000 and 4000 ms. The last status is then thrown by the corrected code, and by the code as written whenever the last body is not `null` |
| `Storefront.MixedFailures` | frontend/html/js/app.js:69-90 | Any mix of server errors and network failures causes exactly four fetches, with sleeps 1000, 2000 and 4000 ms |
| `Storefront.AllNetworkErrors` | frontend/html/js/app.js:83-90 | Persistent network failures cause exactly four fetches with sleeps 1000, 2000 and 4000 ms, and then the TypeError escapes |
| `Storefront.NullBodyClientErrorIsRetried` | frontend/html/js/app.js:78-79 | As written, a 404 whose body is `null` is retried and a later 200 returned; corrected, it rejects with HTTP 404 after one fetch |
| `Service.Without` | backend/src/main/java/com/ecommerce/service/ProductService.java:77 | Removing an id from the listing order keeps exactly the other ids, and changes nothing when the id is absent |
| `Service.WithoutDistinct` | backend/src/main/java/com/ecommerce/service/ProductService.java:77 | Removing an id from a listing order without repeats keeps it without repeats, and shortens it by one when the id was there |
| `Service.PatchedReplacesClientFields` | backend/src/main/java/com/ecommerce/service/ProductService.java:59-66 | An update keeps the record's id and timestamps and takes exactly the six client fields from the details |
| `Service.PatchedIgnoresPatchId` | backend/src/main/java/com/ecommerce/service/ProductService.java:59-66 | The id inside the details plays no part, and applying the same update twice equals applying it once |
| `Service.ProductService.constructor` | backend/src/main/java/com/ecommerce/service/ProductService.java:16-21 | The model's service owns its repository, which starts empty and consistent. Every method's contract holds from any consistent state, so this loses nothing against an injected repository with contents |
| `Service.ProductService.GetAllProducts` | backend/src/main/java/com/ecommerce/service/ProductService.java:27-29 | The listing has one entry per stored row, each entry is the row under its own id, ids are distinct, and every row is listed |
| `Service.ProductService.GetProductById` | backend/src/main/java/com/ecommerce/service/ProductService.java:36-38 | A record is found exactly when the id is stored, and it is that row, carrying that id |
| `Service.ProductService.Save` | backend/src/main/java/com/ecommerce/service/ProductService.java:48 | A record with no id is inserted under a fresh id, never used before, and the counter moves on. A record with an id overwrites that row |
| `Service.ProductService.CreateProduct` | backend/src/main/java/com/ecommerce/service/ProductService.java:45-49 | The caller's id is ignored. The record is the argument under a new id that was never stored or deleted, added to the table, and no other row changes |
| `Service.ProductService.UpdateProduct` | backend/src/main/java/com/ecommerce/service/ProductService.java:57-68 | A result comes back exactly when the id is stored. The row then becomes the old row patched with the six fields; an absent id changes nothing |
| `Service.ProductService.DeleteProduct` | backend/src/main/java/com/ecommerce/service/ProductService.java:75-81 | The call answers whether the id was stored, removes just that row, and shrinks the table by one when it deleted |
| `Service.ConsistentAfterRemove` | backend/src/main/java/com/ecommerce/service/ProductService.java:75-81 | Removing a stored row keeps the store's invariant and retires the id |
| `ServiceProperties.CreateAll` | backend/src/test/java/com/ecommerce/ProductRetrievalPropertyTest.java:35 | Saving a list one by one adds one row per product, in order, under distinct fresh ids, each carrying its product's fields, and nothing else |
| `ServiceProperties.CreationRoundTrip` | backend/src/test/java/com/ecommerce/ProductCreationPropertyTest.java:26-73 | A created valid product gets an id, is found under it, and carries the six submitted fields |
| `ServiceProperties.CreateIgnoresSuppliedId` | backend/src/test/java/com/ecommerce/service/ProductServiceTest.java:87-114 | Creating with an existing record's id still inserts a second record under a different id, and both are listed |
| `ServiceProperties.UpdateCorrectness` | backend/src/test/java/com/ecommerce/ProductUpdatePropertyTest.java:26-91 | After an update the record keeps its id and reads back with the update's six fields |
| `ServiceProperties.AbsentIdIsReported` | backend/src/test/java/com/ecommerce/service/ProductServiceTest.java:144-187 | Updating or deleting an id that is not stored reports absence and stores nothing |
| `ServiceProperties.ListingIsCreated` | backend/src/test/java/com/ecommerce/ProductRetrievalPropertyTest.java:55-65 | A listing of a store filled from empty holds every created record, and nothing else |
| `ServiceProperties.ListingCompleteness` | backend/src/test/java/com/ecommerce/ProductRetrievalPropertyTest.java:30-81 | The listing has as many records as were stored, no duplicate ids, no omissions and no extras, and each keeps its data |
| `ServiceProperties.ListingKeepsOthers` | backend/src/test/java/com/ecommerce/ProductDeletionPropertyTest.java:64-72 | After the row under the first id is removed, every other created record is still stored under its own id, unchanged, and is listed |
| `ServiceProperties.FindEach` | backend/src/test/java/com/ecommerce/ProductDeletionPropertyTest.java:65-72 | Looking up each id in turn gives, position by position, the stored row for that id, or nothing exactly when it is absent |
| `ServiceProperties.DeletionOutcome` | backend/src/test/java/com/ecommerce/ProductDeletionPropertyTest.java:47-72 | With the first created row removed, one record fewer is listed, none with the deleted id, and every other created record is found under its id and listed |
| `ServiceProperties.DeletionCompleteness` | backend/src/test/java/com/ecommerce/ProductDeletionPropertyTest.java:28-73 | After storing products and deleting the first, the delete succeeds and that id is not found or listed, and one record fewer is listed. Every other saved record keeps its id and fields, is still found under its id, and is listed |
| `Admin.GetStockBadge` | frontend/html/js/admin.js:137-145 | The badge class is `out-of-stock` exactly at 0, `low-stock` exactly for other quantities below 10, `in-stock` exactly from 10 up |
| `Admin.BadgeAgreesWithStorefront` | frontend/html/js/admin.js:137-145 | The admin badge and the storefront label put every quantity in the same class |
| `Admin.OrNull` | frontend/html/js/admin.js:286 | Falling back to null turns exactly the empty string into null and keeps any other string |
| `Admin.OptionalFieldMeaning` | frontend/html/js/admin.js:286-290 | An optional form field is sent as null exactly when its input is all white space; otherwise it is sent trimmed |
| `Admin.NameTrimmedNotNulled` | frontend/html/js/admin.js:285 | The name is sent trimmed and never as null; it is empty exactly when the input is all white space |
| `Admin.ProductDataNormalised` | frontend/html/js/admin.js:284-291 | Whatever is typed, the body sent has a trimmed name and optional fields that are null or trimmed and non-empty |
| `Admin.OptionalRoundTrip` | frontend/html/js/admin.js:248-252 | Showing an optional value in the form and reading it back gives it unchanged exactly when it is null or trimmed and non-empty |
| `Admin.NameRoundTrip` | frontend/html/js/admin.js:247 | Showing a name in the form and reading it back gives it unchanged exactly when it is already trimmed |
| `Admin.EditSubmitRoundTrip` | frontend/html/js/admin.js:246-252 | Opening a product for editing and submitting the form untouched sends exactly its six fields if and only if they are normalised |
| `Admin.EditBlankDescriptionIsNull` | frontend/html/js/admin.js:252 | Editing a product whose description is empty, missing or all white space submits a null description |
| `Admin.BlankOptionalIsNull` | frontend/html/js/admin.js:248-252 | A missing, empty or all-white optional value shown in the form is read back as null |
| `Admin.SubmitRequest` | frontend/html/js/admin.js:294-300 | The body is sent unchanged. The request is an update exactly when the edited id is truthy, and then it targets that id |
| `Admin.FindIndex` | frontend/html/js/admin.js:238 | The first position holding the id, or none exactly when no product has it |
| `Admin.AdminPage.constructor` | frontend/html/js/admin.js:8-10 | The page starts with no products, nothing being edited and nothing being deleted |
| `Admin.AdminPage.LoadProducts` | frontend/html/js/admin.js:192-202 | A successful fetch replaces the list; a failed one leaves it as it was |
| `Admin.AdminPage.ResetForm` | frontend/html/js/admin.js:211-221 | Closing the form ends editing |
| `Admin.AdminPage.ShowDeleteModal` | frontend/html/js/admin.js:223-228 | The chosen id becomes the one pending deletion |
| `Admin.AdminPage.CloseDeleteModal` | frontend/html/js/admin.js:230-234 | Nothing is pending deletion afterwards |
| `Admin.AdminPage.EditProduct` | frontend/html/js/admin.js:237-255 | Editing starts exactly when some listed product has the id. The form then shows the first such product, and otherwise nothing changes |
| `Admin.AdminPage.Submit` | frontend/html/js/admin.js:281-306 | The request is the one chosen from the edited id and the normalised body. Success ends editing and reloads the list; failure changes nothing |
| `Admin.AdminPage.ConfirmDelete` | frontend/html/js/admin.js:257-268 | A delete is sent exactly when the pending id is truthy. Success clears it and reloads the list; failure or no pending id changes nothing |

## Left out

- I/O and the DOM are not modelled: `fetch`, `sleep`, `alert`, `console`, showing and hiding elements, and building table rows and cards. Request success and the fetched product list are parameters of the handlers, and the retry policy takes the fetch outcomes as a sequence.
- `escapeHtml`, `formatPrice` and `formatDate` are left out: they delegate to the browser's DOM and `Intl` formatting.
- `parseFloat` and `parseInt` of the price and stock inputs are left out. `Admin.FormInput` carries them as already parsed integers, so `NaN` and fractional prices are not modelled.
- Bean-validation annotations on the entity, the JPA auditing that fills `createdAt` and `updatedAt`, and `@Transactional` are left out. The model keeps timestamps as they are, so the property tests' timestamp assertions are not stated.
- `Service.ProductService.Save`: in the model, saving a record whose id is not stored is excluded by its precondition. The service never does that: create clears the id, and update saves a row it has just found. JPA's own handling of that case is not modelled.
- `Service.ProductService.GetProductById`, `Service.ProductService.UpdateProduct` and `Service.ProductService.DeleteProduct` take ids as non-null, non-negative numbers. The Java methods take a `Long`: a negative id simply finds nothing, and a `null` id makes the repository throw `IllegalArgumentException`; neither call is expressible in the model.
- `Service.ProductService.CreateProduct`: the Java method clears the id on the caller's object in place. The model returns a new value, so aliasing between the argument and the saved entity is not captured.
- `Service.ProductService.GetAllProducts`: the model lists rows in insertion order. The source promises no order, and no contract depends on it.
- The interleaving of admin-page event handlers at their `await` points is not modelled. Each handler runs as one step.
- `JsText.IntToDecimal` renders every integer in plain decimal. JavaScript switches to exponent notation from 1e21 on, which the rendered quantities, Java `Integer`s, never reach.
- String lengths count Dafny characters (code points), not UTF-16 code units as JavaScript does.
- `Storefront.TruncateText`: only string texts and integer bounds are modelled. Other truthy values and non-integer bounds are not.
- `Storefront.GetStockStatus` and `Admin.GetStockBadge`: only integer quantities are modelled. Fractional or non-numeric ones are not.
- `Storefront.FetchWithRetry`: the message text of a thrown Error, built from `errorData.message` or the status line, is abstracted to the status.
- `ServiceProperties.ListingCompleteness` and `ServiceProperties.DeletionCompleteness` require valid products, as the generators supply them. The service itself accepts any product.
- `ProductServiceTest` is mock-based. It is reflected only by the scenarios `CreateIgnoresSuppliedId` and `AbsentIdIsReported`. Its checks of mock call counts are not modelled.

## Findings

| source | as written | input that shows it | evidently intended | confidence | as-written member | corrected member |
|---|---|---|---|---|---|---|
| frontend/html/js/app.js:78-79 | `errorData.message` is read inside the `try`. When a non-ok response below 500 has the JSON body `null`, `response.json()` yields `null`, and reading `.message` of it raises a TypeError. The `catch` at line 84 takes that for a network failure and retries the client error | A 404 whose body is `null`, followed by 200 responses: the request is retried after 1000 ms and the 200 is returned | A client error is never retried; the promise rejects with the HTTP error after one fetch | medium, not executed | `Storefront.NullBodyClientErrorIsRetried` | `Storefront.ClientErrorPropagates` |
