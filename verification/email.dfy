/** The update validator: the deliberately weak shape check on the new email address. */
module Email {
  import Strings

  /**
   * The email is accepted when it contains an "@" and contains a ".",
   * anywhere and in either order.
   */
  function ValidEmail(email: string): (ok: bool)
    ensures ok <==> '@' in email && '.' in email
  {
    Strings.ContainsChar(email, '@');
    Strings.ContainsChar(email, '.');
    Strings.Contains(email, "@") && Strings.Contains(email, ".")
  }

  lemma EmailExamples()
    ensures ValidEmail("a@b.com")
    ensures ValidEmail(".@")
    ensures !ValidEmail("not-an-email")
    ensures !ValidEmail("a@bcom")
    ensures !ValidEmail("a.b.com")
  {
    assert "a@b.com"[1] == '@' && "a@b.com"[3] == '.';
    assert ".@"[0] == '.' && ".@"[1] == '@';
  }
}
