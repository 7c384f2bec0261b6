/** The whole way of a result: printed and sealed on the worker, opened and read in the core. */
module EndToEnd {
  import opened CString
  import opened TextCodec
  import opened ResultMessage
  import opened SendResult
  import Transport

  lemma HeaderIsLong(job: Job)
    ensures |Lines(Header(job))| > 8
  {
    hide IntText;
    assert |Line(Header(job)[0])| > 8;
  }

  /** A result is never so short that the padding is forgotten, or empty. */
  lemma MessageCanBeEncrypted(job: Job, opt: Options)
    ensures Message(job, opt) != "" && !Transport.Unpaddable(|Message(job, opt)| + 1)
  {
    hide Lines, OutputText, Header, Service;
    HeaderIsLong(job);
    var o := "output=" + OutputText(job, opt) + "\n\n\n\n";
    MessageParts(job, opt);
    CutParts(Lines(Header(job)), Lines(Service(job)), o, ResultSize(job));
  }

  /** For every cipher, mode and placement of newlines in the base64: a result within the size limit
      reaches the core as the plugin printed it if and only if it contains no backslash; only its source is
      lost. `t` is what arrives at the core. */
  lemma ResultArrives(job: Job, opt: Options, c: Transport.Cipher, mode: Transport.Mode, m: Transport.Octets, t: string)
    requires Printable(job, opt) && Fits(Escaped(job), opt)
    requires m == Message(Escaped(job), opt) && NUL !in m
    requires Transport.IsCipher(c) && mode != Transport.AcceptAll
    requires Transport.Sealed(c, m, mode).Some? ==>
               Transport.Stripped(t) == Transport.Base64(Transport.Sealed(c, m, mode).value)
    ensures Transport.Sealed(c, m, mode).Some? && Transport.Opened(c, t, mode).Some?
    ensures Receive(CStr(Transport.Opened(c, t, mode).value)) == Some(Delivered(job, opt)) <==>
            BACKSLASH !in Readable(job, opt)
  {
    hide Message, Receive, Readable, Fits, Printable, Escaped, Transport.Unpaddable, Transport.Blocks, Transport.Base64,
         Transport.Stripped, Transport.Opened, Transport.Padded, Transport.Bijective, Transport.BlocksToBlocks;
    MessageCanBeEncrypted(Escaped(job), opt);
    Transport.TransportRoundTrip(c, m, mode, t);
    ResultRoundTrip(job, opt);
  }
}
