/** The record every check reports. */
module Rule {

  /** One finding: where it is and what it says; the message starts with the code of the check. */
  datatype Error = Error(line: int, column: int, message: string)
}
