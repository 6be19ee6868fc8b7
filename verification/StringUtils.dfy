/** Username rules (pkg/utils/string_utils.go). */
module StringUtils {

  predicate ValidUsernameChar(c: char) {
    'a' <= c <= 'z' || 'A' <= c <= 'Z' || '0' <= c <= '9' || c == '_'
  }

  /** The length rule counts bytes, but a name with a character outside ASCII is refused by
      the character rule, and for the others bytes and characters agree. */
  predicate ValidateUsername(username: string) {
    && 3 <= |username| <= 50
    && forall i | 0 <= i < |username| :: ValidUsernameChar(username[i])
  }

  /** The accepted characters by their ASCII codes: digits, capitals, small letters and the
      underscore. */
  lemma ValidCharCodes(c: char)
    ensures ValidUsernameChar(c) <==>
      var code := c as int;
      48 <= code <= 57 || 65 <= code <= 90 || 97 <= code <= 122 || code == 95
  {}

  /** A name of one repeated valid character is valid exactly at three to fifty of them, and
      one invalid character anywhere spoils any name. */
  lemma ValidNamesExactly(c: char, n: nat, username: string)
    ensures ValidUsernameChar(c) ==> (ValidateUsername(seq(n, _ => c)) <==> 3 <= n <= 50)
    ensures c in username && !ValidUsernameChar(c) ==> !ValidateUsername(username)
    ensures ValidateUsername(username) ==> 3 <= |username| <= 50
  {
    var repeated := seq(n, _ => c);
    assert forall i | 0 <= i < |repeated| :: repeated[i] == c;
  }
}
