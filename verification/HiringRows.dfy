/** The rows the hiring tools read and write. */
module HiringRows {

  datatype Kind = Mail | Assessment | Interview | Onboarding

  datatype Row =
    | Job(id: nat, company: nat, title: string, deleted: bool)
    | EmailTemplate(id: nat, company: nat, name: string, content: string)
    | OnboardingTemplate(id: nat, company: nat, name: string, content: string)
    | AssessmentTemplate(id: nat, company: nat, name: string, email: nat)
    | InterviewTemplate(id: nat, company: nat, name: string)
    | Automation(kind: Kind, company: nat, job: nat, stage: nat, template: nat, email: nat, autoMove: bool)
    | Application(id: nat, job: nat, status: int, deleted: bool)
}
