/** Display labels shared by the client form and the PDF renderer. */
module Labels {
  /** "Not selected": shown for a missing institution name or day. */
  const NotSelected: string := "לא נבחר"
}
