/**
  The loaded profile record: the shapes the page reads from the parsed
  data file (src/hooks/useData.ts and their use in src/App.tsx).
 */
module Profile {

  /** An optional field of the data file. */
  datatype Option<+T> = None | Some(value: T)

  /** One tagline: its text, and a link that makes it clickable when set. */
  datatype Subtitle = Subtitle(text: string, link: Option<string>)

  /** The single primary call to action. */
  datatype Cta = Cta(text: string, url: string)

  datatype SocialLink = SocialLink(name: string, url: string, icon: string, color: string)

  datatype PaymentAddress = PaymentAddress(name: string, address: string, icon: string, color: string)

  /** The `profile` block: display identity. */
  datatype Identity = Identity(name: string, title: string)

  /**
    The whole record. `subtitles` is optional because the page guards
    against its absence; `cta` is optional because the page renders the
    call to action only when it is present.
   */
  datatype AppData = AppData(
    profile: Identity,
    subtitles: Option<seq<Subtitle>>,
    cta: Option<Cta>,
    socialLinks: seq<SocialLink>,
    paymentAddresses: seq<PaymentAddress>)
}
