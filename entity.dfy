/**
 * The domain entities of internal/domain/entity: users, blogs and user
 * statistics. A User or Blog object is what the Go code holds behind a
 * pointer and changes in place; its Record() is the value the store keeps
 * as a row and the cache keeps as a JSON document. Timestamps are passed in
 * as integers instead of being read from the clock.
 */
module Entity {
  import opened Wrappers
  import opened Errors

  datatype UserRecord = UserRecord(
    id: int,
    username: string,
    email: string,
    displayName: string,
    bio: string,
    profileImage: string,
    createdAt: int,
    updatedAt: int)

  datatype UserStats = UserStats(followersCount: nat, followingCount: nat, blogsCount: nat)

  /** A blog as read back from the store: its row, the author's row and the number of likes. */
  datatype BlogRecord = BlogRecord(
    id: int,
    title: string,
    description: string,
    body: string,
    authorId: int,
    author: Option<UserRecord>,
    likesCount: nat,
    createdAt: int,
    updatedAt: int)

  /** The checks of User.Validate, in their order: the first empty field decides the error. */
  function ValidateUser(u: UserRecord): (r: Option<Err>)
    ensures r.None? <==> u.username != "" && u.email != "" && u.displayName != ""
    ensures r == Some(InvalidUsername) <==> u.username == ""
    ensures r == Some(InvalidEmail) <==> u.username != "" && u.email == ""
    ensures r == Some(InvalidDisplayName) <==> u.username != "" && u.email != "" && u.displayName == ""
  {
    if u.username == "" then Some(InvalidUsername)
    else if u.email == "" then Some(InvalidEmail)
    else if u.displayName == "" then Some(InvalidDisplayName)
    else None
  }

  /** The checks of Blog.Validate, in their order; the description is never checked. */
  function ValidateBlog(b: BlogRecord): (r: Option<Err>)
    ensures r.None? <==> b.title != "" && b.body != "" && b.authorId != 0
    ensures r == Some(InvalidTitle) <==> b.title == ""
    ensures r == Some(InvalidBody) <==> b.title != "" && b.body == ""
    ensures r == Some(InvalidAuthor) <==> b.title != "" && b.body != "" && b.authorId == 0
  {
    if b.title == "" then Some(InvalidTitle)
    else if b.body == "" then Some(InvalidBody)
    else if b.authorId == 0 then Some(InvalidAuthor)
    else None
  }

  class User {
    var id: int
    var username: string
    var email: string
    var displayName: string
    var bio: string
    var profileImage: string
    var createdAt: int
    var updatedAt: int

    /** NewUser: no id yet, empty bio and image, created and updated at `now`. */
    constructor (username: string, email: string, displayName: string, now: int)
      ensures Record() == UserRecord(0, username, email, displayName, "", "", now, now)
    {
      this.id := 0;
      this.username := username;
      this.email := email;
      this.displayName := displayName;
      this.bio := "";
      this.profileImage := "";
      this.createdAt := now;
      this.updatedAt := now;
    }

    /** A user scanned from a row or decoded from a JSON document. */
    constructor FromRecord(r: UserRecord)
      ensures Record() == r
    {
      id := r.id;
      username := r.username;
      email := r.email;
      displayName := r.displayName;
      bio := r.bio;
      profileImage := r.profileImage;
      createdAt := r.createdAt;
      updatedAt := r.updatedAt;
    }

    function Record(): UserRecord
      reads this
    {
      UserRecord(id, username, email, displayName, bio, profileImage, createdAt, updatedAt)
    }

    /**
     * Overwrites the three profile fields and the update time; it checks
     * nothing, so an empty display name is taken as it is.
     */
    method Update(displayName: string, bio: string, profileImage: string, now: int)
      modifies this
      ensures Record() == old(Record()).(displayName := displayName, bio := bio,
                                         profileImage := profileImage, updatedAt := now)
    {
      this.displayName := displayName;
      this.bio := bio;
      this.profileImage := profileImage;
      this.updatedAt := now;
    }

    function Validate(): Option<Err>
      reads this
    {
      ValidateUser(Record())
    }
  }

  class Blog {
    var id: int
    var title: string
    var description: string
    var body: string
    var authorId: int
    var author: Option<UserRecord>
    var likesCount: nat
    var createdAt: int
    var updatedAt: int

    /** NewBlog: no id yet, no author snapshot, no likes, created and updated at `now`. */
    constructor (title: string, description: string, body: string, authorId: int, now: int)
      ensures Record() == BlogRecord(0, title, description, body, authorId, None, 0, now, now)
    {
      this.id := 0;
      this.title := title;
      this.description := description;
      this.body := body;
      this.authorId := authorId;
      this.author := None;
      this.likesCount := 0;
      this.createdAt := now;
      this.updatedAt := now;
    }

    /** A blog scanned from a joined row or decoded from a JSON document. */
    constructor FromRecord(r: BlogRecord)
      ensures Record() == r
    {
      id := r.id;
      title := r.title;
      description := r.description;
      body := r.body;
      authorId := r.authorId;
      author := r.author;
      likesCount := r.likesCount;
      createdAt := r.createdAt;
      updatedAt := r.updatedAt;
    }

    function Record(): BlogRecord
      reads this
    {
      BlogRecord(id, title, description, body, authorId, author, likesCount, createdAt, updatedAt)
    }

    /** Overwrites the content fields and the update time, checking nothing. */
    method Update(title: string, description: string, body: string, now: int)
      modifies this
      ensures Record() == old(Record()).(title := title, description := description,
                                         body := body, updatedAt := now)
    {
      this.title := title;
      this.description := description;
      this.body := body;
      this.updatedAt := now;
    }

    function Validate(): Option<Err>
      reads this
    {
      ValidateBlog(Record())
    }

    function IsOwnedBy(userId: int): (owned: bool)
      reads this
      ensures owned <==> Record().authorId == userId
    {
      authorId == userId
    }
  }
}
