/** `handle_login`: the body of `POST /login` is `userid,password`; the
    answer is 200 when the password check accepts the pair and 401 when it
    does not. */
module Login {
  import opened Outcomes
  import opened Text
  import opened Response
  import opened Oracles

  /** Removes every LF from the body, splits it on ',', takes field 0 as the
      userid and field 1 as the password. A body without ',' has one field
      only, and indexing the second one panics. */
  function HandleLogin(body: string, db: Backend): (r: Result<string>)
    ensures r.Ok? <==> ',' in body
    ensures r.Panicked? ==> r.reason == MissingPassword
    ensures r.Ok? ==> r.value == EmptyResponse(OK) || r.value == EmptyResponse(UNAUTHORIZED)
  {
    var content := RemoveAll(body, '\n');
    RemoveAllKeeps(body, '\n', ',');
    var parts := Split(content, ',');
    if |parts| < 2 then Panicked(MissingPassword)
    else
      var userid := parts[0];
      var password := parts[1];
      if db.checkPassword(userid, password) then Ok(EmptyResponse(OK))
      else Ok(EmptyResponse(UNAUTHORIZED))
  }

  /** A body that reads `userid,password` once its LFs are gone, possibly
      followed by more ','-separated fields, is answered 200 exactly when
      the check accepts that userid and password, and 401 otherwise. */
  lemma {:induction false} LoginDecision(body: string, userid: string, password: string, more: string, db: Backend)
    requires ',' !in userid && ',' !in password
    requires more == [] || more[0] == ','
    requires RemoveAll(body, '\n') == userid + "," + password + more
    ensures HandleLogin(body, db)
         == Ok(EmptyResponse(if db.checkPassword(userid, password) then OK else UNAUTHORIZED))
  {
    assert userid + "," + password + more == userid + ([','] + (password + more));
    SplitFirstTwo(userid, password, more, ',');
  }

  /** The body line as a client that ends it with LF sends it: the userid
      and password are the text on either side of the ','. */
  lemma {:induction false} LoginLine(userid: string, password: string, db: Backend)
    requires ',' !in userid && ',' !in password
    requires '\n' !in userid && '\n' !in password
    ensures HandleLogin(userid + "," + password + "\n", db)
         == Ok(EmptyResponse(if db.checkPassword(userid, password) then OK else UNAUTHORIZED))
  {
    var text := userid + "," + password;
    StripLineFeed(text, userid, password);
    LoginDecision(text + "\n", userid, password, "", db);
  }

  /** A body line ended by CR LF keeps its CR: the password checked is the
      one sent with '\r' appended. */
  lemma {:induction false} LoginLineKeepsCarriageReturn(userid: string, password: string, db: Backend)
    requires ',' !in userid && ',' !in password
    requires '\n' !in userid && '\n' !in password
    ensures HandleLogin(userid + "," + password + "\r\n", db)
         == Ok(EmptyResponse(if db.checkPassword(userid, password + "\r") then OK else UNAUTHORIZED))
  {
    assert userid + "," + password + "\r\n" == userid + "," + (password + "\r") + "\n";
    LoginLine(userid, password + "\r", db);
  }

  lemma {:induction false} StripLineFeed(text: string, userid: string, password: string)
    requires '\n' !in userid && '\n' !in password
    requires text == userid + "," + password
    ensures RemoveAll(text + "\n", '\n') == text
  {
    assert '\n' !in text;
    RemoveAllAppend(text, "\n", '\n');
    RemoveAllAbsent(text, '\n');
    assert RemoveAll("\n", '\n') == "";
  }
}
