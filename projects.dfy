/** The project record kept in the tracker's list and written to its data file. */
module Projects {

  /** The three external links of a project; an empty string means "not provided". */
  datatype Links = Links(spia: string, ppm: string, onenote: string)

  /** One security-review project (the keys `ppm_number`, `title`, `contact`,
      `description`, `budget_code`, `links` and `current_step`). */
  datatype Project = Project(
    ppmNumber: string,
    title: string,
    contact: string,
    description: string,
    budgetCode: string,
    links: Links,
    currentStep: string)

  /** The record the detail form starts from when a project is added: every
      text field and every link empty, and no stage reached yet. */
  function NewProject(): (p: Project)
    ensures p.ppmNumber == "" && p.title == "" && p.contact == ""
    ensures p.description == "" && p.budgetCode == ""
    ensures p.links.spia == "" && p.links.ppm == "" && p.links.onenote == ""
    ensures p.currentStep == ""
  {
    Project("", "", "", "", "", Links("", "", ""), "")
  }
}
