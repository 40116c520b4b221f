/** The kernel's user accounts: a table of at most 64 users with distinct ids, the user who
    is logged in, and a log of the system calls that user makes, at most 64 entries long. */
module UserMgmt {
  import opened CLang

  const MaxUsers: nat := 64
  const PasswordLen: nat := 16
  const MaxUserLogs: nat := 64

  const Success: int := 0
  const Failure: int := -1

  /** One entry of the user table. The password is the C string held in its 16-byte buffer. */
  datatype User = User(used: int, userId: int, password: CString, loggedIn: int,
                       syscallLog: seq<int>, logCount: int)

  /** A slot of the zero-initialised global table that no user has taken yet. */
  const EmptyUser: User := User(0, 0, "", 0, seq(MaxUserLogs, _ => 0), 0)

  /** safestrcpy into a buffer of n bytes: at most n - 1 characters and the terminator. */
  function SafeCopy(s: CString, n: nat): (r: CString)
    requires n > 0
    ensures |r| <= |s| && |r| <= n - 1 && r == s[..|r|]
    ensures |s| <= n - 1 ==> r == s
  {
    if |s| <= n - 1 then s else s[..n - 1]
  }

  /** Whether a stored user accepts this id and password. */
  predicate Matches(u: User, userId: int, password: CString) {
    u.userId == userId && StrNEqual(u.password, password, PasswordLen)
  }

  /** The user add_user stores in a free slot. */
  function NewUser(slot: User, userId: int, password: CString): (u: User)
    ensures u.used == 1 && u.userId == userId && u.loggedIn == 0 && u.logCount == 0
    ensures |u.password| < PasswordLen && |u.password| <= |password| && u.password == password[..|u.password|]
    ensures |password| < PasswordLen ==> u.password == password
  {
    User(1, userId, SafeCopy(password, PasswordLen), 0, slot.syscallLog, 0)
  }

  /** A stored password is one of at most 15 characters, so a user created with a longer
      password can never log in with it. */
  lemma LongPasswordNeverMatches(slot: User, userId: int, password: CString)
    requires |password| >= PasswordLen
    ensures !Matches(NewUser(slot, userId, password), userId, password)
  {
    StrNEqualShort(NewUser(slot, userId, password).password, password, PasswordLen);
  }

  /** A password of at most 15 characters is stored whole, and only that password logs the
      user in. */
  lemma ShortPasswordMatches(slot: User, userId: int, password: CString, given: CString)
    requires |password| < PasswordLen
    ensures Matches(NewUser(slot, userId, password), userId, given) <==> given == password
  {
    StrNEqualShort(password, given, PasswordLen);
  }

  /** The state every operation keeps, over the table's slots: ids of the stored users are
      distinct, every log has 64 slots and a count in 0..64, stored passwords fit their
      buffer, and only the current user, if any, is logged in. */
  predicate TableInvariant(d: seq<User>, size: int, curr: Option<nat>) {
    |d| == MaxUsers && 0 <= size <= MaxUsers &&
    (forall i :: 0 <= i < |d| ==>
      |d[i].syscallLog| == MaxUserLogs && 0 <= d[i].logCount <= MaxUserLogs &&
      |d[i].password| < PasswordLen) &&
    (forall i, j :: 0 <= i < j < size ==> d[i].userId != d[j].userId) &&
    (curr.Some? ==> curr.value < size && d[curr.value].loggedIn == 1) &&
    (forall i :: 0 <= i < |d| && curr != Some(i) ==> d[i].loggedIn == 0)
  }

  /** Every slot of the initial table is empty and nobody is logged in. */
  lemma EmptyTableKeepsInvariant()
    ensures TableInvariant(seq(MaxUsers, _ => EmptyUser), 0, None)
  {
  }

  /** A user with a fresh id in the next free slot keeps the invariant. */
  lemma AddKeepsInvariant(d: seq<User>, size: int, curr: Option<nat>, userId: int, password: CString)
    requires TableInvariant(d, size, curr) && size < MaxUsers
    requires forall i :: 0 <= i < size ==> d[i].userId != userId
    ensures TableInvariant(d[size := NewUser(d[size], userId, password)], size + 1, curr)
  {
  }

  /** Logging in a stored user while nobody is logged in keeps the invariant. */
  lemma LoginKeepsInvariant(d: seq<User>, size: int, i: nat)
    requires TableInvariant(d, size, None) && i < size
    ensures TableInvariant(d[i := d[i].(loggedIn := 1)], size, Some(i))
  {
  }

  /** Logging the current user out keeps the invariant. */
  lemma LogoutKeepsInvariant(d: seq<User>, size: int, i: nat)
    requires TableInvariant(d, size, Some(i))
    ensures TableInvariant(d[i := d[i].(loggedIn := 0)], size, None)
  {
  }

  /** The log of a user after one more system call: the call appended, or, for a full log,
      the count reset to 0 and nothing recorded. */
  function Logged(u: User, syscallNo: int): (v: User)
    requires |u.syscallLog| == MaxUserLogs && 0 <= u.logCount <= MaxUserLogs
    ensures v.(syscallLog := u.syscallLog, logCount := u.logCount) == u
    ensures |v.syscallLog| == MaxUserLogs && 0 <= v.logCount <= MaxUserLogs
    ensures u.logCount < MaxUserLogs ==> (v.logCount == u.logCount + 1 &&
      v.syscallLog[..v.logCount] == u.syscallLog[..u.logCount] + [syscallNo] &&
      v.syscallLog[v.logCount..] == u.syscallLog[v.logCount..])
    ensures u.logCount == MaxUserLogs ==> v == u.(logCount := 0)
  {
    if u.logCount >= MaxUserLogs then u.(logCount := 0)
    else u.(syscallLog := u.syscallLog[u.logCount := syscallNo], logCount := u.logCount + 1)
  }

  /** Recording a system call for the current user keeps the invariant. */
  lemma LogKeepsInvariant(d: seq<User>, size: int, i: nat, syscallNo: int)
    requires TableInvariant(d, size, Some(i))
    ensures TableInvariant(d[i := Logged(d[i], syscallNo)], size, Some(i))
  {
  }

  class UserTable {
    const data: array<User>
    var size: int
    /** curr_user: the index of the slot it points to; None for the null pointer. */
    var curr: Option<nat>

    predicate Valid()
      reads this, data
    {
      TableInvariant(data[..], size, curr)
    }

    /** The zero-initialised global table and the null current user. */
    constructor ()
      ensures Valid() && size == 0 && curr == None
      ensures data[..] == seq(MaxUsers, _ => EmptyUser)
    {
      data := new User[MaxUsers](_ => EmptyUser);
      size := 0;
      curr := None;
      EmptyTableKeepsInvariant();
    }

    /** is_user_id_unique: 1 exactly when no stored user has the id. */
    method IsUserIdUnique(userId: int) returns (r: int)
      requires Valid()
      ensures r == 1 <==> forall i :: 0 <= i < size ==> data[i].userId != userId
      ensures r == 0 || r == 1
    {
      var i := 0;
      while i < size
        invariant 0 <= i <= size
        invariant forall k :: 0 <= k < i ==> data[k].userId != userId
      {
        if data[i].userId == userId {
          return 0;
        }
        i := i + 1;
      }
      return 1;
    }

    /** add_user: fails on a full table or a duplicate id; otherwise the next slot holds the
        new, logged-out user and the table grows by one. */
    method AddUser(userId: int, password: CString) returns (r: int)
      requires Valid()
      modifies this, data
      ensures Valid()
      ensures old(size) >= MaxUsers ==> r == Failure && unchanged(this, data)
      ensures old(size) < MaxUsers && (exists i :: 0 <= i < old(size) && old(data[i]).userId == userId) ==>
        r == Failure && unchanged(this, data)
      ensures old(size) < MaxUsers && (forall i :: 0 <= i < old(size) ==> old(data[i]).userId != userId) ==>
        r == Success && size == old(size) + 1 && curr == old(curr) &&
        data[..] == old(data[..])[old(size) := NewUser(old(data[size]), userId, password)]
    {
      if size >= MaxUsers {
        return Failure;
      }
      var unique := IsUserIdUnique(userId);
      if unique == 0 {
        return Failure;
      }
      AddKeepsInvariant(data[..], size, curr, userId, password);
      var u := size;
      size := size + 1;
      data[u] := NewUser(data[u], userId, password);
      return Success;
    }

    /** The is_logged_in flag read through curr_user. With the null pointer the kernel reads
        whatever lies at address 0; that value is a parameter. */
    function CurrentLoggedIn(nullLoggedIn: int): int
      requires Valid()
      reads this, data
    {
      if curr.Some? then data[curr.value].loggedIn else nullLoggedIn
    }

    /** login_user: fails while the current user is logged in; otherwise the first user
        whose id and password match becomes the current, logged-in user, and without one the
        login fails. */
    method LoginUser(userId: int, password: CString, nullLoggedIn: int) returns (r: int)
      requires Valid()
      modifies this, data
      ensures Valid() && size == old(size)
      ensures r == Success || r == Failure
      ensures old(CurrentLoggedIn(nullLoggedIn)) == 1 ==> r == Failure
      ensures r == Success <==>
        old(CurrentLoggedIn(nullLoggedIn)) != 1 && exists i :: 0 <= i < size && Matches(old(data[i]), userId, password)
      ensures r == Failure ==> unchanged(this, data)
      ensures r == Success ==> (curr.Some? && curr.value < size && Matches(old(data[..])[curr.value], userId, password) &&
        (forall k :: 0 <= k < curr.value ==> !Matches(old(data[k]), userId, password)) &&
        data[..] == old(data[..])[curr.value := old(data[..])[curr.value].(loggedIn := 1)])
    {
      var current := if curr.Some? then data[curr.value].loggedIn else nullLoggedIn;
      if current == 1 {
        return Failure;
      }
      var found := FindLogin(userId, password);
      if found.None? {
        return Failure;
      }
      var i := found.value;
      LoginKeepsInvariant(data[..], size, i);
      data[i] := data[i].(loggedIn := 1);
      curr := Some(i);
      return Success;
    }

    /** The loop of login_user: the first user whose id and password match, which the loop
        logs in before it returns. */
    method FindLogin(userId: int, password: CString) returns (found: Option<nat>)
      requires 0 <= size <= data.Length
      ensures found.Some? ==> found.value < size && Matches(data[found.value], userId, password)
      ensures found.Some? ==> forall k :: 0 <= k < found.value ==> !Matches(data[k], userId, password)
      ensures found.None? ==> forall k :: 0 <= k < size ==> !Matches(data[k], userId, password)
    {
      var i := 0;
      while i < size
        invariant 0 <= i <= size
        invariant forall k :: 0 <= k < i ==> !Matches(data[k], userId, password)
      {
        if Matches(data[i], userId, password) {
          return Some(i);
        }
        i := i + 1;
      }
      return None;
    }

    /** logout_user: fails unless a current user is logged in; otherwise that user is logged
        out and the current user becomes null. */
    method LogoutUser() returns (r: int)
      requires Valid()
      modifies this, data
      ensures Valid() && size == old(size)
      ensures old(curr).None? ==> r == Failure && unchanged(this, data)
      ensures old(curr).Some? ==> (r == Success && curr == None &&
        data[..] == old(data[..])[old(curr).value := old(data[curr.value]).(loggedIn := 0)])
    {
      if curr.None? || data[curr.value].loggedIn == 0 {
        return Failure;
      }
      LogoutKeepsInvariant(data[..], size, curr.value);
      data[curr.value] := data[curr.value].(loggedIn := 0);
      curr := None;
      return Success;
    }

    /** log_syscall: while a user is logged in, the call goes into that user's log. */
    method LogSyscall(syscallNo: int)
      requires Valid()
      modifies data
      ensures Valid()
      ensures old(curr).None? ==> unchanged(data)
      ensures old(curr).Some? ==> data[..] == old(data[..])[curr.value := Logged(old(data[curr.value]), syscallNo)]
    {
      if curr.Some? && data[curr.value].loggedIn == 1 {
        LogKeepsInvariant(data[..], size, curr.value, syscallNo);
        var u := data[curr.value];
        if u.logCount >= MaxUserLogs {
          data[curr.value] := u.(logCount := 0);
          return;
        }
        data[curr.value] := u.(syscallLog := u.syscallLog[u.logCount := syscallNo], logCount := u.logCount + 1);
      }
    }
  }
}
