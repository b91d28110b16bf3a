/** The sign-in / sign-up form: mode, credentials, busy flag and status message. */
module Auth {
  import opened Todos

  datatype Mode = SignIn | SignUp

  /** `message.type`: `''`, `'error'` or `'success'`. */
  datatype Kind = Blank | Error | Success

  datatype Message = Message(kind: Kind, text: string)

  /** The authentication call a submit makes. */
  datatype AuthCall =
    | SignInWithPassword(email: string, password: string)
    | SignUpWithRedirect(email: string, password: string, emailRedirectTo: string)

  /** How the authentication call settles: no error, or an error whose message may be missing or empty. */
  datatype AuthReply = AuthOk | AuthFailed(message: Option<string>)

  const Cleared := Message(Blank, "")
  const MissingCredentials := "Please provide both email and password."
  const SignedInText := "Signed in. Redirecting..."
  const SignedUpText := "Sign-up successful. Check your email for confirmation (if enabled)."
  const FallbackError := "Authentication failed."

  /** The other mode. */
  function Flip(m: Mode): (r: Mode)
    ensures r != m
  {
    if m == SignIn then SignUp else SignIn
  }

  /** The message a submit leaves: an error when a credential is empty or the
      call fails, a success naming the mode otherwise; never a blank one. */
  function SubmitMessage(mode: Mode, email: string, password: string, reply: AuthReply): (m: Message)
    ensures m.text != ""
    ensures m.kind != Blank
    ensures m.kind == Success <==> email != "" && password != "" && reply.AuthOk?
    ensures m.kind == Success ==> m.text == if mode == SignIn then SignedInText else SignedUpText
    ensures email == "" || password == "" ==> m == Message(Error, MissingCredentials)
    ensures email != "" && password != "" && reply.AuthFailed? ==>
              m.text == if reply.message.Some? && reply.message.value != "" then reply.message.value else FallbackError
  {
    if email == "" || password == "" then Message(Error, MissingCredentials)
    else match reply
      case AuthOk => Message(Success, if mode == SignIn then SignedInText else SignedUpText)
      case AuthFailed(msg) => Message(Error, if msg.Some? && msg.value != "" then msg.value else FallbackError)
  }

  class AuthView {
    var mode: Mode
    var email: string
    var password: string
    var busy: bool
    var message: Message

    constructor ()
      ensures mode == SignIn && email == "" && password == "" && !busy && message == Cleared
    {
      mode := SignIn;
      email := "";
      password := "";
      busy := false;
      message := Cleared;
    }

    method TypeEmail(text: string)
      modifies this`email
      ensures email == text
    {
      email := text;
    }

    method TypePassword(text: string)
      modifies this`password
      ensures password == text
    {
      password := text;
    }

    /** Submit. The message is cleared first. An empty credential sets the
        error message and returns without a call. Otherwise the call for the
        current mode is made while busy is set and the message is blank (a
        sign-up passes `origin` as the redirect address); its outcome sets the
        message and busy is cleared on both paths. */
    method HandleSubmit(origin: string, reply: AuthReply) returns (call: Option<AuthCall>, busyDuringCall: bool, messageDuringCall: Message)
      modifies this`busy, this`message
      ensures message == SubmitMessage(mode, email, password, reply)
      ensures call.None? <==> email == "" || password == ""
      ensures call.None? ==> busy == old(busy)
      ensures call.Some? ==> call.value == (if mode == SignIn then SignInWithPassword(email, password)
                                            else SignUpWithRedirect(email, password, origin))
      ensures call.Some? ==> busyDuringCall && messageDuringCall == Cleared && !busy
    {
      message := Cleared;
      if email == "" || password == "" {
        message := Message(Error, MissingCredentials);
        return None, false, message;
      }
      busy := true;
      if mode == SignIn {
        call := Some(SignInWithPassword(email, password));
      } else {
        call := Some(SignUpWithRedirect(email, password, origin));
      }
      busyDuringCall, messageDuringCall := busy, message;
      match reply {
        case AuthOk =>
          message := Message(Success, if mode == SignIn then SignedInText else SignedUpText);
        case AuthFailed(msg) =>
          message := Message(Error, if msg.Some? && msg.value != "" then msg.value else FallbackError);
      }
      busy := false;
    }

    /** The mode toggle: flips the mode and clears the message. */
    method ToggleMode()
      modifies this`mode, this`message
      ensures mode == Flip(old(mode)) && message == Cleared
    {
      mode := Flip(mode);
      message := Cleared;
    }
  }

  /** Toggling twice restores the mode. */
  lemma FlipTwice(m: Mode)
    ensures Flip(Flip(m)) == m
  {
  }
}
