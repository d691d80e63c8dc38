/** internal/middleware/auth.go: the gate in front of every protected route. */
module Middleware {
  import opened Wrappers
  import opened Text
  import opened Response
  import opened Collaborators

  const BearerMark: string := "Bearer "
  const MissingHeader: string := "Authorization header not found"

  /** The token is the header with the FIRST "Bearer " removed, wherever it occurs. */
  function ExtractToken(header: string): (token: string)
    ensures IndexOf(header, BearerMark).None? ==> token == header
    ensures IndexOf(header, BearerMark).Some? ==> |token| == |header| - |BearerMark|
  {
    ReplaceFirst(header, BearerMark, "")
  }

  /** A well-formed header yields exactly its token. */
  lemma ExtractFromBearerHeader(token: string)
    ensures ExtractToken(BearerMark + token) == token
  {
    var h := BearerMark + token;
    assert OccursAt(h, BearerMark, 0);
    assert IndexOf(h, BearerMark) == Some(0);
  }

  /** Extraction cuts the mark out at its first occurrence. */
  lemma ExtractAt(h: string, i: nat)
    requires IndexOf(h, BearerMark) == Some(i)
    ensures i + |BearerMark| <= |h| && ExtractToken(h) == h[..i] + h[i + |BearerMark|..]
  {
  }

  /** The rule is not anchored and removes one occurrence only. */
  lemma ExtractionIsUnanchoredAndSingle()
    ensures ExtractToken("Bearer Bearer x") == "Bearer x"
    ensures ExtractToken("Token Bearer x") == "Token x"
    ensures ExtractToken("abc") == "abc"
  {
    DoubleMark();
    MarkInside();
    assert IndexOf("abc", BearerMark) == None;
  }

  lemma DoubleMark()
    ensures ExtractToken("Bearer Bearer x") == "Bearer x"
  {
    var h := "Bearer Bearer x";
    assert h[0..7] == BearerMark;
    FirstOccurrence(h, BearerMark, 0);
    ExtractAt(h, 0);
    assert h[7..] == "Bearer x";
  }

  lemma MarkInside()
    ensures ExtractToken("Token Bearer x") == "Token x"
  {
    var h := "Token Bearer x";
    assert h[6..13] == BearerMark;
    forall j | 0 <= j < 6
      ensures !OccursAt(h, BearerMark, j)
    {
      assert h[j] != 'B' && BearerMark[0] == 'B';
      if j + |BearerMark| <= |h| {
        assert h[j..j + |BearerMark|][0] == h[j];
      }
    }
    FirstOccurrence(h, BearerMark, 6);
    ExtractAt(h, 6);
    assert h[..6] + h[13..] == "Token x";
  }

  /** What the middleware leaves in the request context for the handler. */
  datatype Locals = Locals(userId: nat, email: string, role: string)

  datatype Admission = Reject(response: HttpResponse) | Admit(locals: Locals)

  /** An empty header is refused before the validator is consulted; a validator error
      is refused with the validator's own text; otherwise the claims become locals. */
  function Authenticate(deps: Deps, header: string): (a: Admission)
    ensures header == "" ==> a == Reject(Unauthorized(MissingHeader))
    ensures header != "" ==>
      match deps.validateToken(ExtractToken(header), deps.secret)
      case Err(e) => a == Reject(Unauthorized(e))
      case Ok(c) => a == Admit(Locals(c.userId, c.email, c.role))
    ensures a.Reject? ==> a.response.status == StatusUnauthorized && Coherent(a.response)
  {
    if header == "" then Reject(Unauthorized(MissingHeader))
    else
      match deps.validateToken(ExtractToken(header), deps.secret)
      case Err(e) => Reject(Unauthorized(e))
      case Ok(c) => Admit(Locals(c.userId, c.email, c.role))
  }

  /** A protected route: the next handler runs only on admission, and only with the
      locals taken from the validated claims. */
  function Guard(deps: Deps, header: string, next: Locals -> HttpResponse): (r: HttpResponse)
    ensures header == "" ==> r == Unauthorized(MissingHeader)
    ensures Authenticate(deps, header).Admit? ==> r == next(Authenticate(deps, header).locals)
    ensures Authenticate(deps, header).Reject? ==> r == Authenticate(deps, header).response
    ensures Authenticate(deps, header).Reject? ==> r.status == StatusUnauthorized
  {
    match Authenticate(deps, header)
    case Reject(resp) => resp
    case Admit(locals) => next(locals)
  }

  /** The empty-header refusal does not depend on the validator or the next handler. */
  lemma EmptyHeaderIgnoresCollaborators(d1: Deps, d2: Deps, n1: Locals -> HttpResponse, n2: Locals -> HttpResponse)
    ensures Guard(d1, "", n1) == Guard(d2, "", n2)
  {
  }
}
