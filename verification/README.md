# ecommerceShop controllers and admin service, modelled in Dafny

This project models the request-handling logic of a Spring storefront that has two
applications: a customer shop and an admin back office. The logic it covers is:

- the admin application's in-memory `/users` registry, which lists, creates and deletes customers;
- the customer's password change and profile update;
- customer registration and admin registration, each a decision table that ends in at most one save;
- the admin service, which builds an `Admin` entity from a form, seeds two fixed admins and looks admins up by username;
- the customer's checkout page, order placement and order cancellation.

Each handler is a pure function. It takes what the Java method reads: the principal (or
`None` for no login), the form, the binding-result flag and the stores. It returns a
`Web.Response` plus the effect. The response is a view name with its string and number
model and flash attributes, or `ServerError` for an uncaught exception.

The effect depends on which services are modelled:

- The admin service is modelled, so admin registration returns the new admin repository. That repository is a map keyed by username.
- The customer and order service implementations are not modelled, so those handlers return the calls they issue, such as `Save`, `ChangePass`, `Update`, `SaveOrder` and `CancelOrder`.
- `CustomerStore.Persist` gives the customer calls an abstract meaning over a map from username to customer record. Registration and password change can then be stated as store transitions.

The password encoder is a value holding two uninterpreted functions, `encode(raw)` and
`matches(raw, encoded)`. No property depends on what the hash is.

Points where the code behaves in a notable way, and which the model keeps:

- `createCustomer` numbers a customer `size() + 1`. Ids therefore stay dense and unique while only creates happen (`CreatePreservesDenseIds`). A delete followed by a create hands out an id that is still in use (`CreateAfterDeleteReusesId`).
- `deleteUser` removes the element that `findFirst` found. `List.remove(Object)` removes the first equal element, and any earlier equal element would carry the same id, so the two positions coincide.
- `changePass` tests `matches(newPassword, oldPassword)`, which passes a raw password where a hash is expected. The model keeps that call as written.
- `initAdmin` and `initTest` assign the username twice. The second value wins.
- The checkout page's `grandTotal` is the cart's item count, not its price.
- `createOrder` does not re-check address, city or phone, although the checkout page does.
- `cancelOrder` has no principal check.
- Both registration handlers compare the password with its repetition by calling `equals` on the password. A form without a password therefore throws there, and the `catch` block answers with the server-error message.

## Model

| member | source | states |
|---|---|---|
| UserRegistry.ListingAfterCreate | Admin/src/main/java/com/ecommerce/admin/controller/CustomerRestController.java:14-23 | listing the users returns the stored list itself; after a create it is the earlier list followed by the created customer |
| UserRegistry.CreateCustomer | Admin/src/main/java/com/ecommerce/admin/controller/CustomerRestController.java:18-24 | the created customer gets id = list length before insertion + 1 and keeps its other fields; it is appended at the end, the list grows by exactly one, earlier entries are untouched, and the returned customer is the appended one |
| UserRegistry.FindFirst | Admin/src/main/java/com/ecommerce/admin/controller/CustomerRestController.java:28-29 | the filter-then-findFirst search returns the first position carrying the id, or nothing exactly when no customer carries it |
| UserRegistry.DeleteUser | Admin/src/main/java/com/ecommerce/admin/controller/CustomerRestController.java:26-36 | an absent id leaves the list unchanged and answers "User not found."; a present id removes the element at the first position carrying it (length drops by one) and answers the success message for that id |
| UserRegistry.DeleteRemovesOne | Admin/src/main/java/com/ecommerce/admin/controller/CustomerRestController.java:30-31 | a successful delete removes exactly one occurrence (as a multiset) of the first customer with the requested id, and nothing else |
| UserRegistry.DeleteKeepsOrder | Admin/src/main/java/com/ecommerce/admin/controller/CustomerRestController.java:28-31 | customers before the deleted position stay in place and those after it shift down by one, so the survivors keep their relative order |
| UserRegistry.DeletedMessageNamesId | Admin/src/main/java/com/ecommerce/admin/controller/CustomerRestController.java:32 | the success message is "User with ID " + id + " deleted successfully." and the id can be parsed back from between prefix and suffix |
| Decimal.LongRoundTrip | Admin/src/main/java/com/ecommerce/admin/controller/CustomerRestController.java:32 | the decimal rendering of a Long used in the message parses back to the same number |
| Decimal.LongToStringInjective | Admin/src/main/java/com/ecommerce/admin/controller/CustomerRestController.java:32 | distinct ids render distinctly |
| UserRegistry.CreatePreservesDenseIds | Admin/src/main/java/com/ecommerce/admin/controller/CustomerRestController.java:21-22 | while only creates happen, ids are 1..n in list order and hence unique |
| UserRegistry.CreateAfterDeleteReusesId | Admin/src/main/java/com/ecommerce/admin/controller/CustomerRestController.java:21-31 | after deleting any id but the last from a densely numbered list, the next create gives the new customer the same id as the former last one, so ids are no longer unique |
| CustomerAccount.ChangePassword | Customer/src/main/java/com/ecommerce/customer/controller/CustomerController.java:135-159 | no principal redirects to login with no call; otherwise the change is issued, as one changePass call with the stored profile carrying encode(new), exactly when all five checks hold (old matches stored, new matches neither old nor stored, repeat equals new, new has at least 5 characters); on refusal no call is made and the "change-password" view carries "Your password is wrong" |
| CustomerAccount.ShortOrUnrepeatedPasswordRefused | Customer/src/main/java/com/ecommerce/customer/controller/CustomerController.java:149 | a new password under 5 characters, or a repeat that differs, is refused whatever the encoder answers, and the store is unchanged |
| CustomerAccount.ChangePasswordEffect | Customer/src/main/java/com/ecommerce/customer/controller/CustomerController.java:145-156 | on acceptance exactly one call is made and only the principal's stored password changes, to encode(new); on refusal the store is unchanged |
| CustomerAccount.UpdateProfile | Customer/src/main/java/com/ecommerce/customer/controller/CustomerController.java:80-104 | an update call is issued iff a principal is present and the form has no binding errors; with errors the "customer-information" view is returned without an update; otherwise it redirects to the profile with "Update successfully!" |
| CustomerAccount.UpdateProfileEffect | Customer/src/main/java/com/ecommerce/customer/controller/CustomerController.java:95-98 | an accepted update replaces the profile filed under the form's username with the form's fields, but keeps the stored password and the cart, and changes no other customer; a form with binding errors, or no login, leaves the store unchanged |
| CustomerLogin.RegisterCustomer | Customer/src/main/java/com/ecommerce/customer/controller/LoginController.java:74-104 | every path returns "register"; at most one save, made iff there are no binding errors, no collaborator throws, the username is unregistered and password equals confirmation; the saved form carries encode(password); a taken username gives "Email has been register!", a mismatch gives "Password is incorrect"; a username lookup that throws, a null password, or a save that throws gives "Server is error, try again later!" and no save |
| CustomerLogin.RegistrationEffect | Customer/src/main/java/com/ecommerce/customer/controller/LoginController.java:79-98 | an accepted registration adds exactly the new username, whose record holds the form with the encoded password, and changes no other customer; any refusal leaves the store unchanged |
| CustomerLogin.RegisteredUsernameKept | Customer/src/main/java/com/ecommerce/customer/controller/LoginController.java:83-89 | a username already registered is never overwritten, whatever the rest of the form says |
| AdminAuth.AddNewAdmin | Admin/src/main/java/com/ecommerce/admin/controller/AuthController.java:109-145 | every path returns "register"; binding errors short-circuit with no save; a taken username sets emailError, a mismatch sets passwordError, both without saving; a username lookup that throws, a null password, or a save that throws sets errors to "The server has been wrong!" without saving; the repository changes only on the save branch, which stores the admin with encode(password) |
| AdminAuth.RegisteredAdminFound | Admin/src/main/java/com/ecommerce/admin/controller/AuthController.java:128-130 | after an accepted registration, looking up the username returns the saved admin, with the encoded password and the single ADMIN role, and every earlier admin is still found unchanged |
| AdminService.Save | Library/src/main/java/com/ecommerce/library/service/impl/AdminServiceImpl.java:28-37 | first name, last name, username and password are copied from the form unchanged; the roles list holds exactly one entry, the role repository's answer for "ADMIN"; the entity is persisted once under its username and returned |
| AdminService.SaveThenFind | Library/src/main/java/com/ecommerce/library/service/impl/AdminServiceImpl.java:28-58 | when the role repository holds ADMIN, the saved admin's roles are exactly [ADMIN], and findByUsername afterwards returns the entity save returned |
| AdminService.InitAdmin | Library/src/main/java/com/ecommerce/library/service/impl/AdminServiceImpl.java:38-44 | the seeded admin is filed under "admin@abv.bg" with password "1234" and no names or roles; "admin" is not added, because the second assignment overwrote it |
| AdminService.InitTest | Library/src/main/java/com/ecommerce/library/service/impl/AdminServiceImpl.java:48-54 | the seeded admin is filed under "test@abv.bg" with password "1234"; "testUser" is not added |
| AdminService.FindByUsername | Library/src/main/java/com/ecommerce/library/service/impl/AdminServiceImpl.java:55-58 | the lookup returns the repository's entry for the username, or null exactly when there is none |
| CustomerOrders.CheckOut | Customer/src/main/java/com/ecommerce/customer/controller/OrderController.java:57-83 | no principal redirects to login; the "checkout" view is returned iff the customer is registered, address, city and phone are all present and the cart exists, and its grandTotal is the cart's item count; a missing field gives "customer-information" with the update notice |
| CustomerOrders.CreateOrder | Customer/src/main/java/com/ecommerce/customer/controller/OrderController.java:165-182 | no principal: no order call and the session is untouched; a registered customer: exactly one save-order call with the customer's cart, the session loses only "totalItems", and "order-detail" reports success |
| CustomerOrders.CreateOrderNotGated | Customer/src/main/java/com/ecommerce/customer/controller/OrderController.java:63-175 | a customer whom the checkout page sends back for missing address, city or phone can still place an order: the order handler does not recheck these fields |
| CustomerOrders.CancelOrderRequest | Customer/src/main/java/com/ecommerce/customer/controller/OrderController.java:144-149 | any request, logged in or not, is forwarded as exactly one cancel call with the given (possibly null) id and answered with a redirect to the orders list flashing success |
| CustomerOrders.CancelNeedsNoLogin | Customer/src/main/java/com/ecommerce/customer/controller/OrderController.java:144-170 | without a login no order is placed, yet a cancellation is still forwarded and reported as successful |

## Left out

- Cart merging and updating, order saving, and order accept and cancel are left out. The cart and order services are interfaces whose implementations are not part of this model. Their calls are recorded, not interpreted.
- The customer service implementation is not part of this model. `CustomerStore.Persist` is an abstract meaning for its save, update and changePass calls. A saved customer has no cart, an update keeps the stored password, and changePass replaces only the password.
- Object-valued model attributes are not recorded. These are the form DTOs, the country and city lists, the cart and the order. Only string and number attributes are recorded.
- BCrypt is left out. `encode` and `matches` are uninterpreted.
- The read-only page handlers are left out: `profile`, the GET `change-password`, the login, register, index and forgot-password pages, `getOrders` and `getOrderDetails`. They only render what a service returns.
- Spring Security wiring, UserDetails adapters, locale, mail, HTTP calls to other services, JPA entities and repository schemas are framework or I/O code without local logic.
- The `/users` list is shared, unsynchronised state in a singleton controller. Concurrent requests on it are not modelled.
- UserRegistry.CreateCustomer: ids are unbounded integers. Java's `int` sum `size() + 1` would wrap only once the list held 2^31 - 1 customers, which an `ArrayList` cannot hold.
- UserRegistry.DeleteUser: the path id is an unbounded integer. The check that it fits a `Long`, done before the handler runs, is not modelled.
- CustomerAccount.ChangePassword: the length check counts Unicode characters. Java's `length()` counts UTF-16 code units, and the two differ for characters outside the Basic Multilingual Plane.
- CustomerAccount.ChangePassword: a principal with no stored customer is modelled as a server error. The exception may come from the service or from the null dereference.
- CustomerAccount.UpdateProfile: the customer, country and city lookups are not modelled. Their results are only put in the model, and a lookup that throws is not modelled.
- CustomerOrders.CreateOrder: an order service that throws is not modelled. In the code the session attribute would then not be removed.
- AdminService.Save: the admin repository is a map keyed by username. The generated primary key is not modelled, and neither is a second row with the same username.
- AdminService.InitAdmin: the repository is a map keyed by username, so seeding over an existing "admin@abv.bg" replaces that entity. The code inserts a fresh row instead, which adds a second row with that username or fails under a unique constraint.
- AdminService.InitTest: as for `InitAdmin`, seeding over an existing "test@abv.bg" replaces that entity, where the code inserts a fresh row.
- Exceptions thrown by collaborators are modelled only where the handler catches them, in the two registration handlers. There `Web.Fault` says whether the username lookup or the save throws, and a null password reaches the same `catch` block.
