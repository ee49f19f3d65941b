/** The book and page tables behind the REST routes (backend/server.js).
    The three tables are maps keyed as their UNIQUE constraints key them:
    pages by (book_id, page_number), book_permissions by (book_id, user_id),
    books by id.  Each route method runs its body's statements in order
    after the route's authorisation step; a storage failure is an input
    (`fault`, or the statement number `failAt` that throws, with the
    thrown error's message where the reply quotes it). */
module Server {
  import opened Common
  import Auth

  datatype Book = Book(
    title: string,
    description: string,
    ownerId: int,
    pageSize: string,
    orientation: string,
    archived: bool,
    lastSavedAt: Option<int>)

  datatype Reply<T> = Ok(body: T) | Error(status: int, message: string)

  /** The routes that touch books and pages. */
  datatype Route =
    | ListBooks | CreateBook
    | ArchiveBook | UpdateSettings | DeleteBook
    | DeleteAllPages | DeletePage | GetPages | PutPage

  /** The role passed to checkPermission in each route's middleware chain;
      None for the routes guarded by verifyToken alone. */
  function RequiredRole(r: Route): Option<string>
  {
    match r
    case ListBooks => None
    case CreateBook => None
    case ArchiveBook => Some("admin")
    case UpdateSettings => Some("admin")
    case DeleteBook => Some("admin")
    case DeleteAllPages => Some("editor")
    case DeletePage => Some("editor")
    case GetPages => Some("viewer")
    case PutPage => Some("editor")
  }

  /** A viewer may only read pages; an editor may read, save and delete
      pages; book management is left to admins. */
  lemma RequiredRoles(r: Route)
    requires RequiredRole(r).Some?
    ensures Auth.CheckPermission(Some("viewer"), RequiredRole(r).value).Allow? <==> r == GetPages
    ensures Auth.CheckPermission(Some("editor"), RequiredRole(r).value).Allow? <==>
              r in {GetPages, PutPage, DeletePage, DeleteAllPages}
    ensures Auth.CheckPermission(Some("admin"), RequiredRole(r).value).Allow?
  {
  }

  /** `value || fallback` on a request field. */
  function OrDefault(value: Option<string>, fallback: string): (s: string)
    ensures value.Some? && value.value != "" ==> s == value.value
    ensures value.None? || value.value == "" ==> s == fallback
  {
    if value.Some? && value.value != "" then value.value else fallback
  }

  /** POST /api/register rejects a request whose username, email or
      password is missing or empty before anything is hashed or stored. */
  function RegisterCheck(username: Option<string>, email: Option<string>, password: Option<string>): (r: Reply<()>)
    ensures r.Ok? <==> (username.Some? && username.value != "" &&
                        email.Some? && email.value != "" &&
                        password.Some? && password.value != "")
    ensures r.Error? ==> r == Error(400, "Missing required fields")
  {
    if username.None? || username.value == "" || email.None? || email.value == ""
       || password.None? || password.value == ""
    then Error(400, "Missing required fields")
    else Ok(())
  }

  class Database {
    var books: map<int, Book>
    var permissions: map<(int, int), string>
    var pages: map<(int, int), Canvas>
    /** The next value of the books id sequence (SERIAL). */
    var nextId: int

    /** Every page and permission row refers to an existing book, and no
        book id has been handed out yet by the sequence. */
    ghost predicate Valid()
      reads this
    {
      && (forall k :: k in pages ==> k.0 in books)
      && (forall k :: k in permissions ==> k.0 in books)
      && (forall b :: b in books ==> b < nextId)
    }

    constructor ()
      ensures Valid()
      ensures books == map[] && permissions == map[] && pages == map[] && nextId == 1
    {
      books, permissions, pages, nextId := map[], map[], map[], 1;
    }

    /** The role row of `user` on `book`, if any. */
    function RoleOf(user: int, book: int): Option<string>
      reads this
    {
      if (book, user) in permissions then Some(permissions[(book, user)]) else None
    }

    /** The checkPermission middleware of a route for this caller and book. */
    function Authorize(user: int, book: int, route: Route): Auth.Decision
      reads this
      requires RequiredRole(route).Some?
    {
      Auth.CheckPermission(RoleOf(user, book), RequiredRole(route).value)
    }

    /** The pages of one book as a table from page number to canvas_data. */
    function BookPages(book: int): (t: map<int, Canvas>)
      reads this
      ensures forall n :: n in t <==> (book, n) in pages
      ensures forall n :: n in t ==> t[n] == pages[(book, n)]
    {
      var ns := set k | k in pages && k.0 == book :: k.1;
      assert forall n :: n in ns ==> (book, n) in pages;
      map n | n in ns :: pages[(book, n)]
    }

    /** GET /api/books/:bookId/pages (viewer). */
    method GetPages(user: int, book: int, fault: bool) returns (reply: Reply<seq<PageRow>>)
      ensures Authorize(user, book, Route.GetPages).Deny? ==>
                reply == Error(403, Authorize(user, book, Route.GetPages).message)
      ensures Authorize(user, book, Route.GetPages).Allow? && fault ==>
                reply == Error(500, "Failed to fetch pages")
      ensures reply.Ok? <==> Authorize(user, book, Route.GetPages).Allow? && !fault
      ensures reply.Ok? ==> reply.body == RowsOf(BookPages(book))
    {
      var d := Authorize(user, book, Route.GetPages);
      if d.Deny? {
        return Error(d.status, d.message);
      }
      if fault {
        return Error(500, "Failed to fetch pages");
      }
      reply := Ok(RowsOf(BookPages(book)));
    }

    /** PUT /api/books/:bookId/pages/:pageNumber (editor).  Inside one
        transaction: stamp the book's last_saved_at, then update the page row
        if it exists and insert it otherwise.  Any failure before COMMIT
        rolls both writes back. */
    method PutPage(user: int, book: int, pageNumber: int, data: Canvas, now: int, fault: bool)
      returns (reply: Reply<()>)
      requires Valid()
      modifies this
      ensures Valid()
      ensures old(Authorize(user, book, Route.PutPage)).Deny? ==>
                reply == Error(403, old(Authorize(user, book, Route.PutPage)).message)
      ensures reply.Ok? <==> old(Authorize(user, book, Route.PutPage)).Allow? && !fault
      ensures reply.Ok? ==>
                && pages == old(pages)[(book, pageNumber) := data]
                && book in old(books)
                && books == old(books)[book := old(books)[book].(lastSavedAt := Some(now))]
      ensures reply.Error? ==> pages == old(pages) && books == old(books)
      ensures reply.Error? && old(Authorize(user, book, Route.PutPage)).Allow? ==>
                reply == Error(500, "Failed to save page")
      ensures permissions == old(permissions) && nextId == old(nextId)
    {
      var d := Authorize(user, book, Route.PutPage);
      if d.Deny? {
        return Error(d.status, d.message);
      }
      // BEGIN
      var booksBefore, pagesBefore := books, pages;
      if book in books {
        books := books[book := books[book].(lastSavedAt := Some(now))];
      }
      var committed := !fault;
      if committed {
        if (book, pageNumber) in pages {
          pages := pages[(book, pageNumber) := data];
        } else if book in books {
          pages := pages[(book, pageNumber) := data];
        } else {
          // the insert violates the foreign key to books
          committed := false;
        }
      }
      if committed {
        reply := Ok(());
      } else {
        // ROLLBACK
        books, pages := booksBefore, pagesBefore;
        reply := Error(500, "Failed to save page");
      }
    }

    /** DELETE /api/books/:bookId/pages/:pageNumber (editor): removes that
        one row; no other page is renumbered. */
    method DeletePage(user: int, book: int, pageNumber: int, fault: Option<string>) returns (reply: Reply<()>)
      requires Valid()
      modifies this
      ensures Valid()
      ensures old(Authorize(user, book, Route.DeletePage)).Deny? ==>
                reply == Error(403, old(Authorize(user, book, Route.DeletePage)).message)
      ensures reply.Ok? <==> old(Authorize(user, book, Route.DeletePage)).Allow? && fault.None?
      ensures old(Authorize(user, book, Route.DeletePage)).Allow? && fault.Some? ==>
                reply == Error(500, "Failed to delete page: " + fault.value)
      ensures reply.Ok? ==> pages == old(pages) - {(book, pageNumber)}
      ensures reply.Error? ==> pages == old(pages)
      ensures books == old(books) && permissions == old(permissions) && nextId == old(nextId)
    {
      var d := Authorize(user, book, Route.DeletePage);
      if d.Deny? {
        return Error(d.status, d.message);
      }
      if fault.Some? {
        return Error(500, "Failed to delete page: " + fault.value);
      }
      pages := pages - {(book, pageNumber)};
      reply := Ok(());
    }

    /** DELETE /api/books/:bookId/pages/all (editor). */
    method DeleteAllPages(user: int, book: int, fault: Option<string>) returns (reply: Reply<()>)
      requires Valid()
      modifies this
      ensures Valid()
      ensures old(Authorize(user, book, Route.DeleteAllPages)).Deny? ==>
                reply == Error(403, old(Authorize(user, book, Route.DeleteAllPages)).message)
      ensures reply.Ok? <==> old(Authorize(user, book, Route.DeleteAllPages)).Allow? && fault.None?
      ensures old(Authorize(user, book, Route.DeleteAllPages)).Allow? && fault.Some? ==>
                reply == Error(500, "Failed to delete all pages: " + fault.value)
      ensures reply.Ok? ==> pages == map k | k in old(pages) && k.0 != book :: old(pages)[k]
      ensures reply.Error? ==> pages == old(pages)
      ensures books == old(books) && permissions == old(permissions) && nextId == old(nextId)
    {
      var d := Authorize(user, book, Route.DeleteAllPages);
      if d.Deny? {
        return Error(d.status, d.message);
      }
      if fault.Some? {
        return Error(500, "Failed to delete all pages: " + fault.value);
      }
      pages := map k | k in pages && k.0 != book :: pages[k];
      reply := Ok(());
    }

    /** DELETE /api/books/:bookId (admin): three separate statements, not
        one transaction, so a failure at statement `failAt` (1, 2 or 3;
        anything else means none fails) keeps what the earlier ones did. */
    method DeleteBook(user: int, book: int, failAt: nat) returns (reply: Reply<()>)
      requires Valid()
      modifies this
      ensures Valid()
      ensures old(Authorize(user, book, Route.DeleteBook)).Deny? ==>
                reply == Error(403, old(Authorize(user, book, Route.DeleteBook)).message)
      ensures reply.Ok? <==> old(Authorize(user, book, Route.DeleteBook)).Allow? && failAt !in {1, 2, 3}
      ensures old(Authorize(user, book, Route.DeleteBook)).Allow? && failAt != 1 ==>
                pages == map k | k in old(pages) && k.0 != book :: old(pages)[k]
      ensures old(Authorize(user, book, Route.DeleteBook)).Allow? && failAt !in {1, 2} ==>
                permissions == map k | k in old(permissions) && k.0 != book :: old(permissions)[k]
      ensures reply.Ok? ==> books == old(books) - {book}
      ensures reply.Ok? ==> forall k :: (k in pages || k in permissions) ==> k.0 != book
      ensures old(Authorize(user, book, Route.DeleteBook)).Deny? || failAt == 1 ==>
                pages == old(pages) && permissions == old(permissions) && books == old(books)
      ensures failAt == 2 ==> permissions == old(permissions) && books == old(books)
      ensures failAt == 3 ==> books == old(books)
      ensures nextId == old(nextId)
    {
      var d := Authorize(user, book, Route.DeleteBook);
      if d.Deny? {
        return Error(d.status, d.message);
      }
      if failAt == 1 {
        return Error(500, "Failed to delete book");
      }
      pages := map k | k in pages && k.0 != book :: pages[k];
      if failAt == 2 {
        return Error(500, "Failed to delete book");
      }
      permissions := map k | k in permissions && k.0 != book :: permissions[k];
      if failAt == 3 {
        return Error(500, "Failed to delete book");
      }
      books := books - {book};
      reply := Ok(());
    }

    /** The rows GET /api/books returns to `user`: the books they hold a
        permission row for whose archived flag equals (archived === 'true'),
        each with the caller's role.  The query has no ORDER BY, so the
        model returns them keyed by book id. */
    function VisibleBooks(user: int, archivedQuery: Option<string>): (r: map<int, (Book, string)>)
      reads this
      ensures forall b :: b in r <==>
                b in books && (b, user) in permissions &&
                books[b].archived == (archivedQuery == Some("true"))
      ensures forall b :: b in r ==> r[b] == (books[b], permissions[(b, user)])
    {
      var wanted := archivedQuery == Some("true");
      map b | b in books && (b, user) in permissions && books[b].archived == wanted
        :: (books[b], permissions[(b, user)])
    }

    /** GET /api/books (any signed-in user). */
    method ListBooks(user: int, archivedQuery: Option<string>, fault: bool)
      returns (reply: Reply<map<int, (Book, string)>>)
      ensures fault ==> reply == Error(500, "Failed to fetch books")
      ensures !fault ==> reply == Ok(VisibleBooks(user, archivedQuery))
    {
      if fault {
        return Error(500, "Failed to fetch books");
      }
      reply := Ok(VisibleBooks(user, archivedQuery));
    }

    /** POST /api/books (any signed-in user): insert the book with page size
        and orientation defaulting to 'A4' and 'portrait', then grant the
        creator 'admin'.  The two inserts are separate statements, so a
        failure of the second (`failAt == 2`) leaves a book without any
        permission row.  The id sequence advances even when the insert fails. */
    method CreateBook(user: int, title: string, description: string,
                      pageSize: Option<string>, orientation: Option<string>,
                      failAt: nat, errMessage: string)
      returns (reply: Reply<(int, Book)>)
      requires Valid()
      modifies this
      ensures Valid()
      ensures nextId == old(nextId) + 1
      ensures reply.Ok? <==> failAt !in {1, 2}
      ensures reply.Error? ==> reply == Error(500, "Failed to create book: " + errMessage)
      ensures reply.Ok? ==> reply.body.0 == old(nextId) && reply.body.0 !in old(books)
      ensures reply.Ok? ==>
                reply.body.1 == Book(title, description, user, OrDefault(pageSize, "A4"),
                                     OrDefault(orientation, "portrait"), false, None)
      ensures reply.Ok? ==>
                && books == old(books)[reply.body.0 := reply.body.1]
                && permissions == old(permissions)[(reply.body.0, user) := "admin"]
                && RoleOf(user, reply.body.0) == Some("admin")
                && reply.body.0 in VisibleBooks(user, None)
      ensures failAt == 1 ==> books == old(books) && permissions == old(permissions)
      ensures failAt == 2 ==>
                && books == old(books)[old(nextId) := Book(title, description, user, OrDefault(pageSize, "A4"),
                                                          OrDefault(orientation, "portrait"), false, None)]
                && old(nextId) !in old(books)
                && permissions == old(permissions)
                && forall u :: RoleOf(u, old(nextId)) == None
      ensures pages == old(pages)
    {
      var id := nextId;
      nextId := nextId + 1;
      if failAt == 1 {
        return Error(500, "Failed to create book: " + errMessage);
      }
      var b := Book(title, description, user, OrDefault(pageSize, "A4"),
                    OrDefault(orientation, "portrait"), false, None);
      books := books[id := b];
      if failAt == 2 {
        return Error(500, "Failed to create book: " + errMessage);
      }
      permissions := permissions[(id, user) := "admin"];
      reply := Ok((id, b));
    }

    /** PUT /api/books/:bookId (admin): sets the archived flag. */
    method ArchiveBook(user: int, book: int, archived: bool, fault: bool) returns (reply: Reply<()>)
      requires Valid()
      modifies this
      ensures Valid()
      ensures old(Authorize(user, book, Route.ArchiveBook)).Deny? ==>
                reply == Error(403, old(Authorize(user, book, Route.ArchiveBook)).message)
      ensures reply.Ok? <==> old(Authorize(user, book, Route.ArchiveBook)).Allow? && !fault
      ensures reply.Ok? ==> book in old(books) && books == old(books)[book := old(books)[book].(archived := archived)]
      ensures reply.Error? ==> books == old(books)
      ensures pages == old(pages) && permissions == old(permissions) && nextId == old(nextId)
    {
      var d := Authorize(user, book, Route.ArchiveBook);
      if d.Deny? {
        return Error(d.status, d.message);
      }
      if fault {
        return Error(500, "Failed to update book");
      }
      books := books[book := books[book].(archived := archived)];
      reply := Ok(());
    }

    /** PUT /api/books/:bookId/settings (admin): overwrites the four settings
        as given (no defaults here) and stamps last_saved_at. */
    method UpdateSettings(user: int, book: int, title: string, description: string,
                          pageSize: string, orientation: string, now: int, fault: bool)
      returns (reply: Reply<()>)
      requires Valid()
      modifies this
      ensures Valid()
      ensures old(Authorize(user, book, Route.UpdateSettings)).Deny? ==>
                reply == Error(403, old(Authorize(user, book, Route.UpdateSettings)).message)
      ensures reply.Ok? <==> old(Authorize(user, book, Route.UpdateSettings)).Allow? && !fault
      ensures reply.Ok? ==>
                book in old(books) &&
                books == old(books)[book := old(books)[book].(title := title, description := description,
                  pageSize := pageSize, orientation := orientation, lastSavedAt := Some(now))]
      ensures reply.Error? ==> books == old(books)
      ensures pages == old(pages) && permissions == old(permissions) && nextId == old(nextId)
    {
      var d := Authorize(user, book, Route.UpdateSettings);
      if d.Deny? {
        return Error(d.status, d.message);
      }
      if fault {
        return Error(500, "Failed to update book settings");
      }
      books := books[book := books[book].(title := title, description := description,
        pageSize := pageSize, orientation := orientation, lastSavedAt := Some(now))];
      reply := Ok(());
    }
  }
}
