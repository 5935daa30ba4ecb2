/**
 * The `POST /contact` handler: check the three required fields, build the
 * notification for the site owner and the acknowledgment for the sender,
 * send them one after the other and answer with the outcome.
 *
 * The email provider is not modelled; each send takes its outcome (true for
 * delivered, false for a thrown error) from a sequence supplied by the
 * caller, in order.
 */
module Contact {
  import opened Js

  /** The JSON body; a field that is absent is `None`. */
  datatype Body = Body(name: Option<string>, email: Option<string>, message: Option<string>)

  /** One outbound email. `to` and `from` come from configuration and may be unset. */
  datatype Message = Message(to: Option<string>, from: Option<string>, subject: string, text: string, html: string)

  /** `{ ok: true, sentTo }` or `{ error }`. */
  datatype Reply = Sent(sentTo: seq<Option<string>>) | Error(error: string)

  datatype Response = Response(status: int, reply: Reply)

  const MissingFields := "Missing required fields: name, email, message"
  const SendFailed := "Erro interno ao enviar e-mail"

  /** `req.body || {}`: without a body every field is absent. */
  function Fields(body: Option<Body>): (b: Body)
    ensures body.Some? ==> b == body.value
    ensures body.None? ==> b.name.None? && b.email.None? && b.message.None?
  {
    if body.Some? then body.value else Body(None, None, None)
  }

  /** All three fields are present and non-empty. */
  predicate Complete(b: Body) {
    Truthy(b.name) && Truthy(b.email) && Truthy(b.message)
  }

  // Fixed parts of the two messages.
  const AdminSubjectHead := "Novo contato: "
  const AdminTextHead := "Nova mensagem de "
  const AdminHtmlHead := "<p><strong>Nova mensagem de "
  const AdminHtmlMid := "&gt;:</strong></p><pre>"
  const UserSubjectHead := "Recebemos sua mensagem — Obrigado, "
  const UserPromise := "Recebemos sua mensagem e vamos responder em breve."
  const UserHtmlMid := "</p><h4>Sua mensagem</h4><pre>"

  /** The notification to the site owner, sent to `toEmail`. */
  function AdminMessage(toEmail: Option<string>, fromEmail: Option<string>, name: string, email: string, message: string): (m: Message)
    ensures m.to == toEmail && m.from == fromEmail
    ensures Contains(m.subject, name) && Contains(m.subject, email)
    ensures Contains(m.text, message) && Contains(m.html, message)
  {
    var subject := AdminSubjectHead + name + " <" + email + ">";
    var text := AdminTextHead + name + " <" + email + ">:\n\n" + message;
    var html := AdminHtmlHead + name + " &lt;" + email + AdminHtmlMid + message + "</pre>";
    ContainsEnd(AdminSubjectHead, name);
    ContainsExtend(AdminSubjectHead + name, " <", name);
    ContainsExtend(AdminSubjectHead + name + " <", email, name);
    ContainsExtend(AdminSubjectHead + name + " <" + email, ">", name);
    ContainsEnd(AdminSubjectHead + name + " <", email);
    ContainsExtend(AdminSubjectHead + name + " <" + email, ">", email);
    ContainsEnd(AdminTextHead + name + " <" + email + ">:\n\n", message);
    ContainsEnd(AdminHtmlHead + name + " &lt;" + email + AdminHtmlMid, message);
    ContainsExtend(AdminHtmlHead + name + " &lt;" + email + AdminHtmlMid + message, "</pre>", message);
    Message(toEmail, fromEmail, subject, text, html)
  }

  /** The acknowledgment, sent to the address the submitter gave. */
  function UserMessage(fromEmail: Option<string>, name: string, email: string, message: string): (m: Message)
    ensures m.to == Some(email) && m.from == fromEmail
    ensures Contains(m.subject, name)
    ensures Contains(m.text, message) && Contains(m.html, message)
  {
    var subject := UserSubjectHead + name;
    var text := "Olá " + name + ",\n\n" + UserPromise + "\n\nResumo:\n" + message;
    var html := "<p>Olá " + name + ",</p><p>" + UserPromise + UserHtmlMid + message + "</pre>";
    ContainsEnd(UserSubjectHead, name);
    ContainsEnd("Olá " + name + ",\n\n" + UserPromise + "\n\nResumo:\n", message);
    ContainsEnd("<p>Olá " + name + ",</p><p>" + UserPromise + UserHtmlMid, message);
    ContainsExtend("<p>Olá " + name + ",</p><p>" + UserPromise + UserHtmlMid + message, "</pre>", message);
    Message(Some(email), fromEmail, subject, text, html)
  }

  /**
   * The message is placed in both HTML bodies without escaping: any markup
   * it holds reaches both emails' HTML as written.
   */
  lemma MarkupReachesHtml(toEmail: Option<string>, fromEmail: Option<string>, name: string, email: string, message: string, markup: string)
    requires Contains(message, markup)
    ensures Contains(AdminMessage(toEmail, fromEmail, name, email, message).html, markup)
    ensures Contains(UserMessage(fromEmail, name, email, message).html, markup)
  {
    ContainsTransitive(AdminMessage(toEmail, fromEmail, name, email, message).html, message, markup);
    ContainsTransitive(UserMessage(fromEmail, name, email, message).html, message, markup);
  }

  /**
   * The handler. An incomplete body is answered 400 before anything is
   * sent. Otherwise the notification is sent first and the acknowledgment
   * only if that succeeded; success of both gives 200 with both recipients,
   * any failure gives 500. `outcomes[i]` is the outcome of the i-th send.
   * `attempted` lists the messages handed to the provider, in order.
   */
  method PostContact(toEmail: Option<string>, fromEmail: Option<string>, body: Option<Body>, outcomes: seq<bool>)
    returns (res: Response, attempted: seq<Message>)
    requires |outcomes| >= 2
    ensures !Complete(Fields(body)) ==> res == Response(400, Error(MissingFields)) && attempted == []
    ensures Complete(Fields(body)) ==>
      var f := Fields(body);
      && 1 <= |attempted| <= 2
      && attempted[0] == AdminMessage(toEmail, fromEmail, f.name.value, f.email.value, f.message.value)
      && (|attempted| == 2 <==> outcomes[0])
      && (|attempted| == 2 ==> attempted[1] == UserMessage(fromEmail, f.name.value, f.email.value, f.message.value))
    ensures res.reply.Sent? <==> Complete(Fields(body)) && outcomes[0] && outcomes[1]
    ensures res.reply.Sent? ==> res == Response(200, Sent([toEmail, Fields(body).email]))
    ensures Complete(Fields(body)) && !(outcomes[0] && outcomes[1]) ==> res == Response(500, Error(SendFailed))
  {
    var f := Fields(body);
    if !Complete(f) {
      return Response(400, Error(MissingFields)), [];
    }
    var name, email, message := f.name.value, f.email.value, f.message.value;
    var adminMsg := AdminMessage(toEmail, fromEmail, name, email, message);
    var userMsg := UserMessage(fromEmail, name, email, message);

    attempted := [adminMsg];
    if !outcomes[0] {
      return Response(500, Error(SendFailed)), attempted;
    }
    attempted := attempted + [userMsg];
    if !outcomes[1] {
      return Response(500, Error(SendFailed)), attempted;
    }
    res := Response(200, Sent([toEmail, Some(email)]));
  }

  /** A submission with the message field left out is refused with 400 and nothing is sent. */
  method MissingMessageExample() {
    var res, attempted := PostContact(Some("ops@example.com"), None, Some(Body(Some("Ana"), Some(""), None)), [true, true]);
    assert res == Response(400, Error("Missing required fields: name, email, message"));
    assert attempted == [];
  }
}
