/** The make_user user program: it checks that it got a user id and a password, that the id
    is written in decimal digits only, and then asks the kernel to create the user. */
module MakeUser {
  import opened CLang

  /** is_valid_number: 1 when every character of the string is a decimal digit, so also for
      the empty string; the first other character, a minus sign included, gives 0. */
  method IsValidNumber(str: CString) returns (r: int)
    ensures r == 1 <==> AllDigits(str)
    ensures r == 0 || r == 1
  {
    var i := 0;
    while CharAt(str, i) != '\0'
      invariant 0 <= i <= |str|
      invariant AllDigits(str[..i])
      decreases |str| - i
    {
      if CharAt(str, i) < '0' || CharAt(str, i) > '9' {
        return 0;
      }
      assert str[..i + 1] == str[..i] + [str[i]];
      i := i + 1;
    }
    assert str[..i] == str;
    return 1;
  }

  /** What main does with its arguments. */
  datatype Outcome =
    | WrongInput                               // the usage message
    | InvalidId                                // the id is not a string of digits
    | CallsMakeUser(uid: int, password: CString)  // the make_user system call

  /** The user id atoi reads from a string of digits, in a C int. */
  function ParsedId(s: string): int {
    ToInt32(Decimal(s))
  }

  /** main: exactly two arguments after the program name, the first of them digits only. */
  method CheckArguments(argv: seq<CString>) returns (o: Outcome)
    ensures |argv| != 3 ==> o == WrongInput
    ensures |argv| == 3 && !AllDigits(argv[1]) ==> o == InvalidId
    ensures |argv| == 3 && AllDigits(argv[1]) ==> o == CallsMakeUser(ParsedId(argv[1]), argv[2])
  {
    if |argv| != 3 {
      return WrongInput;
    }
    var valid := IsValidNumber(argv[1]);
    if valid == 0 {
      return InvalidId;
    }
    var uid := ParsedId(argv[1]);
    var pass := argv[2];
    return CallsMakeUser(uid, pass);
  }

  lemma {:induction false} DecimalNonNegative(s: string)
    requires AllDigits(s)
    ensures Decimal(s) >= 0
  {
    if s != [] {
      DecimalNonNegative(s[..|s| - 1]);
    }
  }

  /** An id that fits a C int is read as itself, so it is never negative. */
  lemma ValidIdIsNonNegative(s: string)
    requires AllDigits(s) && Decimal(s) <= INT_MAX
    ensures ParsedId(s) == Decimal(s) >= 0
  {
    DecimalNonNegative(s);
  }

  /** The empty id passes the check and creates user 0; an id past the largest C int wraps
      to a negative one, though the message promises a positive id. */
  lemma CheckAdmitsZeroAndNegativeIds()
    ensures AllDigits("") && ParsedId("") == 0
    ensures AllDigits("2147483648") && ParsedId("2147483648") == -0x8000_0000
  {
    assert Decimal("2") == 2;
    assert "21"[..1] == "2";
    assert Decimal("21") == 21;
    assert "214"[..2] == "21";
    assert Decimal("214") == 214;
    assert "2147"[..3] == "214";
    assert Decimal("2147") == 2147;
    assert "21474"[..4] == "2147";
    assert Decimal("21474") == 21474;
    assert "214748"[..5] == "21474";
    assert Decimal("214748") == 214748;
    assert "2147483"[..6] == "214748";
    assert Decimal("2147483") == 2147483;
    assert "21474836"[..7] == "2147483";
    assert Decimal("21474836") == 21474836;
    assert "214748364"[..8] == "21474836";
    assert Decimal("214748364") == 214748364;
    assert "2147483648"[..9] == "214748364";
    assert Decimal("2147483648") == 2147483648;
  }
}
