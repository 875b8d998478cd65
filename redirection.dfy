/** The redirection duck: on the server the first redirect destination
    wins; in the browser a redirect only marks one as in flight. */
module Redirection {
  import opened Wrappers

  datatype RedirectionState = RedirectionState(destination: Option<string>, redirectionInFlight: bool)

  const InitialState: RedirectionState := RedirectionState(None, false)

  datatype RedirectionAction =
    | ServerSideRedirect(destination: Option<string>)
    | ClientSideRedirect
    | Noop
    | OtherRedirectionAction

  function Reduce(s: RedirectionState, a: RedirectionAction): (r: RedirectionState)
    ensures a.ServerSideRedirect? && Truthy(s.destination) ==> r == s
    ensures a.ServerSideRedirect? && !Truthy(s.destination) ==> r == s.(destination := a.destination)
    ensures a.ClientSideRedirect? ==> r == s.(redirectionInFlight := true)
    ensures a.Noop? || a.OtherRedirectionAction? ==> r == s
  {
    match a
    case ServerSideRedirect(destination) =>
      if Truthy(s.destination) then s else s.(destination := destination)
    case ClientSideRedirect => s.(redirectionInFlight := true)
    case _ => s
  }

  function ReduceAll(s: RedirectionState, acts: seq<RedirectionAction>): RedirectionState
    decreases |acts|
  {
    if acts == [] then s else ReduceAll(Reduce(s, acts[0]), acts[1..])
  }

  /** Once a destination is set, no later action changes it, and once a
      redirect is in flight it stays in flight. */
  lemma {:induction false} DestinationSticks(s: RedirectionState, acts: seq<RedirectionAction>)
    requires Truthy(s.destination)
    ensures ReduceAll(s, acts).destination == s.destination
    ensures s.redirectionInFlight ==> ReduceAll(s, acts).redirectionInFlight
    decreases |acts|
  {
    if acts != [] {
      DestinationSticks(Reduce(s, acts[0]), acts[1..]);
    }
  }

  /** In the browser no action ever sets a destination. */
  lemma {:induction false} ClientRedirectsKeepDestination(s: RedirectionState, acts: seq<RedirectionAction>)
    requires forall i :: 0 <= i < |acts| ==> !acts[i].ServerSideRedirect?
    ensures ReduceAll(s, acts).destination == s.destination
    decreases |acts|
  {
    if acts != [] {
      ClientRedirectsKeepDestination(Reduce(s, acts[0]), acts[1..]);
    }
  }

  /** What `externalRedirect` returns, and the address handed to
      `window.location.assign` in the browser. */
  datatype Redirect = Redirect(action: RedirectionAction, assign: Option<string>)

  /** `externalRedirect`; `None` stands for a destination that is not a
      string. */
  function ExternalRedirect(destination: Option<string>, browser: bool): (r: Redirect)
    ensures destination.None? ==> r == Redirect(Noop, None)
    ensures destination.Some? && browser ==> r == Redirect(ClientSideRedirect, destination)
    ensures destination.Some? && !browser ==> r == Redirect(ServerSideRedirect(destination), None)
  {
    if destination.None? then Redirect(Noop, None)
    else if browser then Redirect(ClientSideRedirect, destination)
    else Redirect(ServerSideRedirect(destination), None)
  }

  /** On the server the first non-empty redirect wins: the destinations of
      later redirects are ignored. */
  lemma FirstServerRedirectWins(first: string, later: seq<string>)
    requires first != ""
    ensures var acts := [ExternalRedirect(Some(first), false).action] +
              seq(|later|, i requires 0 <= i < |later| => ExternalRedirect(Some(later[i]), false).action);
      ReduceAll(InitialState, acts).destination == Some(first)
  {
    var acts := [ExternalRedirect(Some(first), false).action] +
      seq(|later|, i requires 0 <= i < |later| => ExternalRedirect(Some(later[i]), false).action);
    assert acts[1..] == seq(|later|, i requires 0 <= i < |later| => ExternalRedirect(Some(later[i]), false).action);
    var s1 := Reduce(InitialState, acts[0]);
    assert s1.destination == Some(first);
    DestinationSticks(s1, acts[1..]);
  }
}
